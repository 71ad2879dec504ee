/**
 Customers' credit accounts (backend/internal/service/cliente_service.go,
 backend/internal/repository/cliente_repo.go).

 Every operation reads the customer, decides, and later writes back: charges and payments overwrite the
 stored balance and append an entry in one transaction, an edit saves the whole row.  Nothing ties the
 write to the balance that was read, so the books are kept only while these read-to-write windows on
 one customer do not overlap.  Amounts are in cents.
 */
module Clientes {
  import opened Arithmetic
  import opened Wrappers

  type Resultado<T> = Result<T, Error>

  datatype Error = NoEncontrado | ExcedeLimite(disponible: int, solicitado: int) | ExcedeSaldo | FallaBase

  /** How to reach the customer, and notes. */
  datatype Datos = Datos(nombre: string, telefono: Option<string>, email: Option<string>, dni: Option<string>, notas: Option<string>)

  datatype Cliente = Cliente(datos: Datos, limite: int, saldo: int, activo: bool)

  /** What an edit asks for; a field that is None is left as it is. */
  datatype Edicion = Edicion(nombre: Option<string>, telefono: Option<string>, email: Option<string>, dni: Option<string>,
                             limite: Option<int>, activo: Option<bool>, notas: Option<string>)

  datatype Tipo = Cargo | Pago

  datatype Movimiento = Movimiento(cliente: int, tipo: Tipo, monto: int, saldoPosterior: int)

  /** The two tables. */
  datatype Tablas = Tablas(clientes: map<int, Cliente>, movimientos: seq<Movimiento>)

  // ---------------------------------------------------------------------------------------------
  // Decisions on what was read
  // ---------------------------------------------------------------------------------------------

  function DecidirCargo(id: int, c: Cliente, monto: int): Resultado<Movimiento> {
    var nuevo := c.saldo + monto;
    if c.limite > 0 && nuevo > c.limite then Err(ExcedeLimite(c.limite - c.saldo, monto))
    else Ok(Movimiento(id, Cargo, monto, nuevo))
  }

  function DecidirPago(id: int, c: Cliente, monto: int): Resultado<Movimiento> {
    if monto > c.saldo then Err(ExcedeSaldo) else Ok(Movimiento(id, Pago, monto, c.saldo - monto))
  }

  /** The credit `clienteToResponse` shows as available. */
  function Disponible(c: Cliente): int {
    if c.limite > 0 then Max(0, c.limite - c.saldo) else 0
  }

  /** With a credit limit, the credit shown is exactly the largest charge that goes through; without one it shows 0 and any charge does. */
  lemma DisponibleEsElMayorCargo(id: int, c: Cliente, monto: int)
    requires monto > 0
    ensures c.limite > 0 ==> (DecidirCargo(id, c, monto).Ok? <==> monto <= Disponible(c))
    ensures c.limite <= 0 ==> Disponible(c) == 0 && DecidirCargo(id, c, monto).Ok?
  {
  }

  // ---------------------------------------------------------------------------------------------
  // Writes
  // ---------------------------------------------------------------------------------------------

  /** `UpdateSaldoTx`: the balance column is overwritten and the entry appended, in one transaction. */
  function SaldoEscrito(t: Tablas, m: Movimiento): Tablas {
    Tablas(if m.cliente in t.clientes then t.clientes[m.cliente := t.clientes[m.cliente].(saldo := m.saldoPosterior)] else t.clientes,
           t.movimientos + [m])
  }

  /** `Update`: the whole row is saved. */
  function FilaGuardada(t: Tablas, id: int, c: Cliente): Tablas {
    t.(clientes := t.clientes[id := c])
  }

  function Reemplazado<T>(nuevo: Option<T>, viejo: T): T {
    if nuevo.Some? then nuevo.value else viejo
  }

  function Cambiado<T>(nuevo: Option<T>, viejo: Option<T>): Option<T> {
    if nuevo.Some? then nuevo else viejo
  }

  function Editado(c: Cliente, e: Edicion): Cliente {
    Cliente(Datos(Reemplazado(e.nombre, c.datos.nombre), Cambiado(e.telefono, c.datos.telefono), Cambiado(e.email, c.datos.email),
                  Cambiado(e.dni, c.datos.dni), Cambiado(e.notas, c.datos.notas)),
            Reemplazado(e.limite, c.limite), c.saldo, Reemplazado(e.activo, c.activo))
  }

  /** The service with nobody else at work during an operation. `dbOk` is whether the final write commits. */
  class ClienteService {
    var clientes: map<int, Cliente>
    var movimientos: seq<Movimiento>

    ghost function Estado(): Tablas
      reads this
    {
      Tablas(clientes, movimientos)
    }

    constructor ()
      ensures Estado() == Tablas(map[], [])
    {
      clientes, movimientos := map[], [];
    }

    /** A primary key that is taken, or a database that fails, leaves everything as it was. */
    method Crear(id: int, datos: Datos, limite: int, dbOk: bool) returns (r: Resultado<Cliente>)
      modifies this
      ensures id in old(clientes) || !dbOk ==> r == Err(FallaBase) && Estado() == old(Estado())
      ensures id !in old(clientes) && dbOk ==>
                r == Ok(Cliente(datos, limite, 0, true)) && Estado() == FilaGuardada(old(Estado()), id, r.value)
      ensures r.Ok? ==> clientes == old(clientes)[id := r.value] && movimientos == old(movimientos)
    {
      var c := Cliente(datos, limite, 0, true);
      if id in clientes || !dbOk {
        return Err(FallaBase);
      }
      clientes := clientes[id := c];
      return Ok(c);
    }

    method FindByID(id: int) returns (r: Resultado<Cliente>)
      ensures r == if id in clientes then Ok(clientes[id]) else Err(NoEncontrado)
    {
      if id !in clientes {
        return Err(NoEncontrado);
      }
      return Ok(clientes[id]);
    }

    method UpdateSaldoTx(id: int, saldo: int, m: Movimiento, dbOk: bool) returns (ok: bool)
      requires m.cliente == id && m.saldoPosterior == saldo
      modifies this
      ensures ok == dbOk
      ensures Estado() == if dbOk then SaldoEscrito(old(Estado()), m) else old(Estado())
      ensures movimientos == if dbOk then old(movimientos) + [m] else old(movimientos)
      ensures clientes == if dbOk && id in old(clientes) then old(clientes)[id := old(clientes)[id].(saldo := saldo)] else old(clientes)
    {
      if !dbOk {
        return false;
      }
      if id in clientes {
        clientes := clientes[id := clientes[id].(saldo := saldo)];
      }
      movimientos := movimientos + [m];
      return true;
    }

    method CargarFiado(id: int, monto: int, dbOk: bool) returns (r: Resultado<()>)
      modifies this
      ensures var d := if id in old(clientes) then DecidirCargo(id, old(clientes)[id], monto) else Err(NoEncontrado);
              if d.Ok? && dbOk then r.Ok? && Estado() == SaldoEscrito(old(Estado()), d.value)
              else r == Err(if d.Err? then d.error else FallaBase) && Estado() == old(Estado())
      ensures r.Ok? <==> dbOk && id in old(clientes) && (old(clientes)[id].limite <= 0 || old(clientes)[id].saldo + monto <= old(clientes)[id].limite)
      ensures r.Ok? ==>
                var c := old(clientes)[id];
                && clientes == old(clientes)[id := c.(saldo := c.saldo + monto)]
                && movimientos == old(movimientos) + [Movimiento(id, Cargo, monto, c.saldo + monto)]
      ensures r.Err? ==>
                && clientes == old(clientes) && movimientos == old(movimientos)
                && r.error == if id !in old(clientes) then NoEncontrado
                              else
                                var c := old(clientes)[id];
                                if 0 < c.limite < c.saldo + monto then ExcedeLimite(c.limite - c.saldo, monto) else FallaBase
    {
      var c :- FindByID(id);
      var nuevoSaldo := c.saldo + monto;
      if c.limite > 0 && nuevoSaldo > c.limite {
        return Err(ExcedeLimite(c.limite - c.saldo, monto));
      }
      var ok := UpdateSaldoTx(id, nuevoSaldo, Movimiento(id, Cargo, monto, nuevoSaldo), dbOk);
      if !ok {
        return Err(FallaBase);
      }
      return Ok(());
    }

    method RegistrarPago(id: int, monto: int, dbOk: bool) returns (r: Resultado<Movimiento>)
      modifies this
      ensures var d := if id in old(clientes) then DecidirPago(id, old(clientes)[id], monto) else Err(NoEncontrado);
              if d.Ok? && dbOk then r == d && Estado() == SaldoEscrito(old(Estado()), d.value)
              else r == Err(if d.Err? then d.error else FallaBase) && Estado() == old(Estado())
      ensures r.Ok? <==> dbOk && id in old(clientes) && monto <= old(clientes)[id].saldo
      ensures r.Ok? ==>
                var c := old(clientes)[id];
                && clientes == old(clientes)[id := c.(saldo := c.saldo - monto)]
                && r.value == Movimiento(id, Pago, monto, c.saldo - monto)
                && movimientos == old(movimientos) + [r.value]
      ensures r.Err? ==>
                && clientes == old(clientes) && movimientos == old(movimientos)
                && r.error == if id !in old(clientes) then NoEncontrado
                              else if monto > old(clientes)[id].saldo then ExcedeSaldo else FallaBase
    {
      var c :- FindByID(id);
      if monto > c.saldo {
        return Err(ExcedeSaldo);
      }
      var m := Movimiento(id, Pago, monto, c.saldo - monto);
      var ok := UpdateSaldoTx(id, c.saldo - monto, m, dbOk);
      if !ok {
        return Err(FallaBase);
      }
      return Ok(m);
    }

    /** The fields of the request that are there replace those of the row. */
    method EditarDatos(antes: Datos, e: Edicion) returns (d: Datos)
      ensures d.nombre == if e.nombre.Some? then e.nombre.value else antes.nombre
      ensures d.telefono == if e.telefono.Some? then e.telefono else antes.telefono
      ensures d.email == if e.email.Some? then e.email else antes.email
      ensures d.dni == if e.dni.Some? then e.dni else antes.dni
      ensures d.notas == if e.notas.Some? then e.notas else antes.notas
    {
      d := antes;
      if e.nombre.Some? {
        d := d.(nombre := e.nombre.value);
      }
      if e.telefono.Some? {
        d := d.(telefono := e.telefono);
      }
      if e.email.Some? {
        d := d.(email := e.email);
      }
      if e.dni.Some? {
        d := d.(dni := e.dni);
      }
      if e.notas.Some? {
        d := d.(notas := e.notas);
      }
    }

    method Actualizar(id: int, e: Edicion, dbOk: bool) returns (r: Resultado<Cliente>)
      modifies this
      ensures if id !in old(clientes) then r == Err(NoEncontrado) && Estado() == old(Estado())
              else if !dbOk then r == Err(FallaBase) && Estado() == old(Estado())
              else
                var c := Editado(old(clientes)[id], e);
                r == Ok(c) && Estado() == FilaGuardada(old(Estado()), id, c)
      ensures r.Ok? ==>
                var antes, c := old(clientes)[id], r.value;
                && clientes == old(clientes)[id := c] && movimientos == old(movimientos) && c.saldo == antes.saldo
                && c.datos.nombre == (if e.nombre.Some? then e.nombre.value else antes.datos.nombre)
                && c.datos.telefono == (if e.telefono.Some? then e.telefono else antes.datos.telefono)
                && c.datos.email == (if e.email.Some? then e.email else antes.datos.email)
                && c.datos.dni == (if e.dni.Some? then e.dni else antes.datos.dni)
                && c.datos.notas == (if e.notas.Some? then e.notas else antes.datos.notas)
                && c.limite == (if e.limite.Some? then e.limite.value else antes.limite)
                && c.activo == (if e.activo.Some? then e.activo.value else antes.activo)
    {
      var c :- FindByID(id);
      var datos := EditarDatos(c.datos, e);
      c := c.(datos := datos);
      if e.limite.Some? {
        c := c.(limite := e.limite.value);
      }
      if e.activo.Some? {
        c := c.(activo := e.activo.value);
      }
      if !dbOk {
        return Err(FallaBase);
      }
      clientes := clientes[id := c];
      return Ok(c);
    }
  }

  // ---------------------------------------------------------------------------------------------
  // The books
  // ---------------------------------------------------------------------------------------------

  function ConSigno(m: Movimiento): int {
    if m.tipo == Cargo then m.monto else -m.monto
  }

  /** Charges less payments of one customer. */
  function Balance(ms: seq<Movimiento>, id: int): int {
    if ms == [] then 0
    else Balance(ms[..|ms| - 1], id) + if ms[|ms| - 1].cliente == id then ConSigno(ms[|ms| - 1]) else 0
  }

  ghost predicate SaldosCuadran(t: Tablas) {
    forall id :: id in t.clientes ==> t.clientes[id].saldo == Balance(t.movimientos, id) && t.clientes[id].saldo >= 0
  }

  /** Each entry's running balance is the sum of its customer's entries up to it. */
  ghost predicate LibroCuadra(ms: seq<Movimiento>) {
    forall k :: 0 <= k < |ms| ==> ms[k].saldoPosterior == Balance(ms[..k + 1], ms[k].cliente)
  }

  ghost predicate SinHuerfanos(t: Tablas) {
    forall k :: 0 <= k < |t.movimientos| ==> t.movimientos[k].cliente in t.clientes
  }

  ghost predicate Cuadra(t: Tablas) {
    SaldosCuadran(t) && LibroCuadra(t.movimientos) && SinHuerfanos(t)
  }

  lemma BalanceSnoc(ms: seq<Movimiento>, m: Movimiento, id: int)
    ensures Balance(ms + [m], id) == Balance(ms, id) + if m.cliente == id then ConSigno(m) else 0
  {
    assert (ms + [m])[..|ms|] == ms;
  }

  lemma LibroSnoc(ms: seq<Movimiento>, m: Movimiento)
    requires LibroCuadra(ms)
    ensures LibroCuadra(ms + [m]) <==> m.saldoPosterior == Balance(ms, m.cliente) + ConSigno(m)
  {
    var all := ms + [m];
    BalanceSnoc(ms, m, m.cliente);
    assert all[..|ms| + 1] == all;
    forall k | 0 <= k < |ms| ensures all[k].saldoPosterior == Balance(all[..k + 1], all[k].cliente) {
      assert all[..k + 1] == ms[..k + 1];
    }
    assert all[|ms|] == m;
  }

  /** A write of a decided entry keeps the books exactly when the balance it was decided on is still the stored one. */
  lemma EscrituraCuadraSiVigente(t: Tablas, m: Movimiento)
    requires Cuadra(t) && m.cliente in t.clientes && m.saldoPosterior >= 0
    ensures Cuadra(SaldoEscrito(t, m)) <==> m.saldoPosterior == t.clientes[m.cliente].saldo + ConSigno(m)
  {
    hide Balance;
    var t' := SaldoEscrito(t, m);
    LibroSnoc(t.movimientos, m);
    forall id | id in t.clientes
      ensures Balance(t'.movimientos, id) == Balance(t.movimientos, id) + if m.cliente == id then ConSigno(m) else 0
    {
      BalanceSnoc(t.movimientos, m, id);
    }
    assert t'.movimientos[|t.movimientos|] == m;
    assert t'.clientes.Keys == t.clientes.Keys;
    if m.saldoPosterior == t.clientes[m.cliente].saldo + ConSigno(m) {
      assert SaldosCuadran(t');
    }
  }

  /** Saving a whole row keeps them exactly when its balance is still the stored one: an edit can undo a charge. */
  lemma EdicionCuadraSiVigente(t: Tablas, id: int, c: Cliente)
    requires Cuadra(t) && id in t.clientes
    ensures Cuadra(FilaGuardada(t, id, c)) <==> c.saldo == t.clientes[id].saldo
  {
    var t' := FilaGuardada(t, id, c);
    assert t'.clientes.Keys == t.clientes.Keys;
    assert t'.clientes[id].saldo == c.saldo;
  }

  // ---------------------------------------------------------------------------------------------
  // Interleavings
  // ---------------------------------------------------------------------------------------------

  datatype Pedido = PedirCargo(monto: int) | PedirPago(monto: int) | PedirEdicion(edicion: Edicion)

  /** What an operation that has read and decided is about to write. */
  datatype Ventana = EscribeMovimiento(m: Movimiento) | EscribeFila(id: int, fila: Cliente)

  function ClienteDe(v: Ventana): int {
    match v
    case EscribeMovimiento(m) => m.cliente
    case EscribeFila(id, _) => id
  }

  /** The tables and the operations that have read but not yet written, by the name of the operation. */
  datatype Sistema = Sistema(t: Tablas, abiertas: map<int, Ventana>)

  datatype Evento =
    | Alta(id: int, datos: Datos, limite: int)
    | Leer(op: int, id: int, pedido: Pedido)
    | Escribir(op: int, dbOk: bool)

  function Decidir(id: int, c: Cliente, p: Pedido): Resultado<Ventana> {
    match p
    case PedirCargo(monto) =>
      var d := DecidirCargo(id, c, monto);
      if d.Ok? then Ok(EscribeMovimiento(d.value)) else Err(d.error)
    case PedirPago(monto) =>
      var d := DecidirPago(id, c, monto);
      if d.Ok? then Ok(EscribeMovimiento(d.value)) else Err(d.error)
    case PedirEdicion(edicion) => Ok(EscribeFila(id, Editado(c, edicion)))
  }

  function Escrito(t: Tablas, v: Ventana): Tablas {
    match v
    case EscribeMovimiento(m) => SaldoEscrito(t, m)
    case EscribeFila(id, fila) => FilaGuardada(t, id, fila)
  }

  function Paso(s: Sistema, ev: Evento): Sistema {
    match ev
    case Alta(id, datos, limite) =>
      if id in s.t.clientes then s else s.(t := FilaGuardada(s.t, id, Cliente(datos, limite, 0, true)))
    case Leer(op, id, pedido) =>
      if id !in s.t.clientes then s
      else
        var d := Decidir(id, s.t.clientes[id], pedido);
        if d.Err? then s else s.(abiertas := s.abiertas[op := d.value])
    case Escribir(op, dbOk) =>
      if op !in s.abiertas then s
      else Sistema(if dbOk then Escrito(s.t, s.abiertas[op]) else s.t, s.abiertas - {op})
  }

  const VACIO := Sistema(Tablas(map[], []), map[])

  function Corrida(evs: seq<Evento>): Sistema {
    if evs == [] then VACIO else Paso(Corrida(evs[..|evs| - 1]), evs[|evs| - 1])
  }

  /**
   A read and the write that follows it at once: the charge or the payment goes through exactly as the operation
   undisturbed would, and an edit changes no balance.
   */
  lemma LeerYEscribir(s: Sistema, op: int, id: int, pedido: Pedido, dbOk: bool)
    requires op !in s.abiertas
    ensures var s' := Paso(Paso(s, Leer(op, id, pedido)), Escribir(op, dbOk));
            && s'.abiertas == s.abiertas
            && (id !in s.t.clientes || !dbOk ==> s'.t == s.t)
            && (id in s.t.clientes && dbOk ==>
                  var c := s.t.clientes[id];
                  match pedido
                  case PedirCargo(monto) =>
                    s'.t == if c.limite > 0 && c.saldo + monto > c.limite then s.t
                            else Tablas(s.t.clientes[id := c.(saldo := c.saldo + monto)], s.t.movimientos + [Movimiento(id, Cargo, monto, c.saldo + monto)])
                  case PedirPago(monto) =>
                    s'.t == if monto > c.saldo then s.t
                            else Tablas(s.t.clientes[id := c.(saldo := c.saldo - monto)], s.t.movimientos + [Movimiento(id, Pago, monto, c.saldo - monto)])
                  case PedirEdicion(edicion) =>
                    s'.t.movimientos == s.t.movimientos && s'.t.clientes == s.t.clientes[id := Editado(c, edicion)])
  {
  }

  /** Charges are not negative, and nobody reads a customer while another operation on it has yet to write. */
  ghost predicate SinSolape(s: Sistema, ev: Evento) {
    ev.Leer? ==>
      && ev.op !in s.abiertas
      && (ev.pedido.PedirCargo? ==> ev.pedido.monto >= 0)
      && forall op :: op in s.abiertas ==> ClienteDe(s.abiertas[op]) != ev.id
  }

  ghost predicate CorridaSinSolapes(evs: seq<Evento>) {
    forall k :: 0 <= k < |evs| ==> SinSolape(Corrida(evs[..k]), evs[k])
  }

  /** What is about to be written was decided on the balance and the limit still in force. */
  ghost predicate Vigente(t: Tablas, v: Ventana) {
    && ClienteDe(v) in t.clientes
    && var c := t.clientes[ClienteDe(v)];
       match v
       case EscribeMovimiento(m) =>
         && m.saldoPosterior == c.saldo + ConSigno(m) && m.saldoPosterior >= 0
         && (m.tipo == Cargo && c.limite > 0 ==> m.saldoPosterior <= c.limite)
       case EscribeFila(_, fila) => fila.saldo == c.saldo
  }

  ghost predicate VentanasVigentes(s: Sistema) {
    && (forall op :: op in s.abiertas ==> Vigente(s.t, s.abiertas[op]))
    && (forall a, b :: a in s.abiertas && b in s.abiertas && ClienteDe(s.abiertas[a]) == ClienteDe(s.abiertas[b]) ==> a == b)
  }

  lemma AltaCuadra(t: Tablas, id: int, datos: Datos, limite: int)
    requires Cuadra(t) && id !in t.clientes
    ensures Cuadra(FilaGuardada(t, id, Cliente(datos, limite, 0, true)))
  {
    SinMovimientos(t.movimientos, id);
  }

  lemma {:induction false} SinMovimientos(ms: seq<Movimiento>, id: int)
    requires forall k :: 0 <= k < |ms| ==> ms[k].cliente != id
    ensures Balance(ms, id) == 0
  {
    if ms != [] {
      SinMovimientos(ms[..|ms| - 1], id);
    }
  }

  lemma PasoCuadra(s: Sistema, ev: Evento)
    requires Cuadra(s.t) && VentanasVigentes(s)
    ensures Cuadra(Paso(s, ev).t)
  {
    match ev
    case Alta(id, datos, limite) =>
      if id !in s.t.clientes {
        AltaCuadra(s.t, id, datos, limite);
      }
    case Leer(_, _, _) =>
    case Escribir(op, dbOk) =>
      if op in s.abiertas && dbOk {
        match s.abiertas[op]
        case EscribeMovimiento(m) => EscrituraCuadraSiVigente(s.t, m);
        case EscribeFila(id, fila) => EdicionCuadraSiVigente(s.t, id, fila);
      }
  }

  /** A write touches its own customer only, so the other windows stay current. */
  lemma EscrituraAjena(t: Tablas, v: Ventana, otra: Ventana)
    requires Vigente(t, v) && Vigente(t, otra) && ClienteDe(v) != ClienteDe(otra)
    ensures Vigente(Escrito(t, v), otra)
  {
  }

  lemma PasoVigente(s: Sistema, ev: Evento)
    requires Cuadra(s.t) && VentanasVigentes(s) && SinSolape(s, ev)
    ensures VentanasVigentes(Paso(s, ev))
  {
    var s' := Paso(s, ev);
    forall op | op in s'.abiertas ensures Vigente(s'.t, s'.abiertas[op]) {
      if op in s.abiertas {
        assert Vigente(s.t, s.abiertas[op]);
        if ev.Escribir? && ev.op in s.abiertas && ev.dbOk {
          EscrituraAjena(s.t, s.abiertas[ev.op], s.abiertas[op]);
        }
      }
    }
  }

  lemma {:induction false} CorridaCuadra(evs: seq<Evento>)
    requires CorridaSinSolapes(evs)
    ensures Cuadra(Corrida(evs).t) && VentanasVigentes(Corrida(evs))
  {
    if evs != [] {
      var antes := evs[..|evs| - 1];
      forall k | 0 <= k < |antes| ensures SinSolape(Corrida(antes[..k]), antes[k]) {
        assert antes[..k] == evs[..k];
      }
      CorridaCuadra(antes);
      assert SinSolape(Corrida(evs[..|evs| - 1]), evs[|evs| - 1]);
      PasoCuadra(Corrida(antes), evs[|evs| - 1]);
      PasoVigente(Corrida(antes), evs[|evs| - 1]);
    }
  }

  /** In every run without overlaps, whatever the interleaving across customers, each balance is its
      charges less its payments and not negative, and each entry's running balance is the sum up to it. */
  lemma LibrosEnOrden(evs: seq<Evento>, id: int, k: nat)
    requires CorridaSinSolapes(evs)
    ensures var t := Corrida(evs).t;
            && (id in t.clientes ==> t.clientes[id].saldo == Balance(t.movimientos, id) >= 0)
            && (k < |t.movimientos| ==> t.movimientos[k].saldoPosterior == Balance(t.movimientos[..k + 1], t.movimientos[k].cliente))
  {
    CorridaCuadra(evs);
  }

  /** And no charge is written that leaves its customer above a positive limit then in force. */
  lemma CargoRespetaLimite(evs: seq<Evento>, op: int)
    requires CorridaSinSolapes(evs)
    requires var s := Corrida(evs);
             op in s.abiertas && s.abiertas[op].EscribeMovimiento? && s.abiertas[op].m.tipo == Cargo
    ensures var s := Corrida(evs);
            var t', id := Paso(s, Escribir(op, true)).t, s.abiertas[op].m.cliente;
            && id in t'.clientes && t'.clientes[id].limite == s.t.clientes[id].limite
            && t'.clientes[id].saldo == s.abiertas[op].m.saldoPosterior
            && (t'.clientes[id].limite > 0 ==> t'.clientes[id].saldo <= t'.clientes[id].limite)
  {
    CorridaCuadra(evs);
    assert Vigente(Corrida(evs).t, Corrida(evs).abiertas[op]);
  }

  // ---------------------------------------------------------------------------------------------
  // Exactly which runs keep the books
  // ---------------------------------------------------------------------------------------------

  lemma CorridaSnoc(evs: seq<Evento>, ev: Evento)
    ensures Corrida(evs + [ev]) == Paso(Corrida(evs), ev)
  {
    assert (evs + [ev])[..|evs|] == evs;
  }

  /** The balance a pending write was decided on is still the stored one. */
  predicate AlDia(t: Tablas, v: Ventana)
    requires ClienteDe(v) in t.clientes
  {
    match v
    case EscribeMovimiento(m) => m.saldoPosterior == t.clientes[m.cliente].saldo + ConSigno(m)
    case EscribeFila(id, fila) => fila.saldo == t.clientes[id].saldo
  }

  ghost predicate CargosNoNegativos(evs: seq<Evento>) {
    forall k :: 0 <= k < |evs| && evs[k].Leer? && evs[k].pedido.PedirCargo? ==> evs[k].pedido.monto >= 0
  }

  /** The one step sets no charge on its way that is negative. */
  predicate PasoNoNegativo(ev: Evento) {
    ev.Leer? && ev.pedido.PedirCargo? ==> ev.pedido.monto >= 0
  }

  /** What holds in every run, books or no books: nothing stored or on its way is negative, and it is of a known customer. */
  ghost predicate SinNegativos(s: Sistema) {
    && (forall id :: id in s.t.clientes ==> s.t.clientes[id].saldo >= 0)
    && (forall op :: op in s.abiertas ==>
          var v := s.abiertas[op];
          && ClienteDe(v) in s.t.clientes
          && match v
             case EscribeMovimiento(m) => m.saldoPosterior >= 0
             case EscribeFila(_, fila) => fila.saldo >= 0)
  }

  lemma PasoSinNegativos(s: Sistema, ev: Evento)
    requires SinNegativos(s) && PasoNoNegativo(ev)
    ensures SinNegativos(Paso(s, ev))
  {
  }

  lemma {:induction false} CorridaSinNegativos(evs: seq<Evento>)
    requires CargosNoNegativos(evs)
    ensures SinNegativos(Corrida(evs))
  {
    hide Paso;
    if evs != [] {
      assert CargosNoNegativos(evs[..|evs| - 1]);
      CorridaSinNegativos(evs[..|evs| - 1]);
      assert PasoNoNegativo(evs[|evs| - 1]);
      PasoSinNegativos(Corrida(evs[..|evs| - 1]), evs[|evs| - 1]);
    }
  }

  /** If the step commits a write, the write is up to date. */
  predicate EscribeAlDia(s: Sistema, ev: Evento) {
    ev.Escribir? && ev.dbOk && ev.op in s.abiertas && ClienteDe(s.abiertas[ev.op]) in s.t.clientes ==> AlDia(s.t, s.abiertas[ev.op])
  }

  /** Books in order stay so exactly when the step commits nothing out of date. */
  lemma PasoCuadraSiAlDia(s: Sistema, ev: Evento)
    requires Cuadra(s.t) && SinNegativos(s)
    ensures Cuadra(Paso(s, ev).t) <==> EscribeAlDia(s, ev)
  {
    hide SaldosCuadran, LibroCuadra, SinHuerfanos, SaldoEscrito;
    match ev
    case Alta(id, datos, limite) =>
      if id !in s.t.clientes {
        AltaCuadra(s.t, id, datos, limite);
      }
    case Leer(_, _, _) =>
    case Escribir(op, dbOk) =>
      if op in s.abiertas && dbOk {
        match s.abiertas[op]
        case EscribeMovimiento(m) => EscrituraCuadraSiVigente(s.t, m);
        case EscribeFila(id, fila) => EdicionCuadraSiVigente(s.t, id, fila);
      }
  }

  ghost predicate SiempreCuadra(evs: seq<Evento>) {
    forall k :: 0 <= k <= |evs| ==> Cuadra(Corrida(evs[..k]).t)
  }

  ghost predicate SiempreAlDia(evs: seq<Evento>) {
    forall k :: 0 <= k < |evs| ==> EscribeAlDia(Corrida(evs[..k]), evs[k])
  }

  /**
   For every run, overlapping or not: the books are in order all along it if and only if every write it commits
   was decided on the balance still stored.
   */
  lemma {:induction false} CuadraSiYSoloSiAlDia(evs: seq<Evento>)
    requires CargosNoNegativos(evs)
    ensures SiempreCuadra(evs) <==> SiempreAlDia(evs)
  {
    hide Corrida, Cuadra, EscribeAlDia, Paso;
    if evs == [] {
      assert evs[..0] == [];
      AntesDeTodo();
    } else {
      var antes, ev := evs[..|evs| - 1], evs[|evs| - 1];
      assert evs == antes + [ev];
      assert forall k :: 0 <= k <= |antes| ==> antes[..k] == evs[..k];
      assert evs[..|evs|] == evs && antes[..|antes|] == antes;
      CuadraSiYSoloSiAlDia(antes);
      CorridaSinNegativos(antes);
      CorridaSnoc(antes, ev);
      if Cuadra(Corrida(antes).t) {
        PasoCuadraSiAlDia(Corrida(antes), ev);
      }
      if SiempreCuadra(evs) {
        assert SiempreCuadra(antes) by {
          assert forall k :: 0 <= k <= |antes| ==> Cuadra(Corrida(evs[..k]).t);
        }
        assert Cuadra(Corrida(evs[..|antes|]).t) && Cuadra(Corrida(evs[..|evs|]).t);
      }
      if SiempreAlDia(evs) {
        assert SiempreAlDia(antes);
        assert Cuadra(Corrida(antes[..|antes|]).t);
        assert EscribeAlDia(Corrida(evs[..|antes|]), evs[|antes|]);
      }
    }
  }

  /**
   Of two overlapping movements of one customer the one written second wins: from books in order, with both
   decided on the stored balance, they are in order after both writes exactly when the first moved nothing.
   */
  lemma SolapePierdeElPrimero(s: Sistema, a: int, b: int)
    requires Cuadra(s.t) && a in s.abiertas && b in s.abiertas && a != b
    requires s.abiertas[a].EscribeMovimiento? && s.abiertas[b].EscribeMovimiento?
    requires s.abiertas[a].m.saldoPosterior >= 0 && s.abiertas[b].m.saldoPosterior >= 0
    requires ClienteDe(s.abiertas[a]) == ClienteDe(s.abiertas[b]) && ClienteDe(s.abiertas[a]) in s.t.clientes
    requires AlDia(s.t, s.abiertas[a]) && AlDia(s.t, s.abiertas[b])
    ensures var s' := Paso(Paso(s, Escribir(a, true)), Escribir(b, true));
            var id, m1, m2 := ClienteDe(s.abiertas[a]), s.abiertas[a].m, s.abiertas[b].m;
            && (Cuadra(s'.t) <==> ConSigno(m1) == 0)
            && id in s'.t.clientes && s'.t.clientes[id].saldo == s.t.clientes[id].saldo + ConSigno(m2)
            && Balance(s'.t.movimientos, id) == s.t.clientes[id].saldo + ConSigno(m1) + ConSigno(m2)
  {
    hide SaldosCuadran, LibroCuadra, SinHuerfanos;
    var id, m1, m2 := ClienteDe(s.abiertas[a]), s.abiertas[a].m, s.abiertas[b].m;
    var s1 := Paso(s, Escribir(a, true));
    EscrituraCuadraSiVigente(s.t, m1);
    EscrituraCuadraSiVigente(s1.t, m2);
    BalanceEs(s.t, id);
    BalanceSnoc(s.t.movimientos, m1, id);
    BalanceSnoc(s.t.movimientos + [m1], m2, id);
  }

  lemma BalanceEs(t: Tablas, id: int)
    requires Cuadra(t) && id in t.clientes
    ensures t.clientes[id].saldo == Balance(t.movimientos, id)
  {
  }

  lemma AntesDeTodo()
    ensures Corrida([]) == VACIO && Balance([], 1) == 0 && Cuadra(VACIO.t)
  {
  }

  /** Two charges to a customer without debt, the second read before the first is written. */
  function Solape(datos: Datos, a: int, b: int): seq<Evento> {
    [Alta(1, datos, 0)] + [Leer(7, 1, PedirCargo(a))] + [Leer(8, 1, PedirCargo(b))] + [Escribir(7, true)] + [Escribir(8, true)]
  }

  /** For instance from the start: both charges are on the ledger and only the one written second is owed. */
  lemma SolapePierdeUnCargo(datos: Datos, a: int, b: int)
    ensures var t := Corrida(Solape(datos, a, b)).t;
            1 in t.clientes && t.clientes[1].saldo == b && Balance(t.movimientos, 1) == a + b
  {
    hide Corrida, Balance;
    var m1, m2, c0 := Movimiento(1, Cargo, a, a), Movimiento(1, Cargo, b, b), Cliente(datos, 0, 0, true);
    var e0: seq<Evento> := [];
    var e1 := [Alta(1, datos, 0)];
    var e2 := e1 + [Leer(7, 1, PedirCargo(a))];
    var e3 := e2 + [Leer(8, 1, PedirCargo(b))];
    var e4 := e3 + [Escribir(7, true)];
    AntesDeTodo();
    assert e0 + [Alta(1, datos, 0)] == e1;
    CorridaSnoc(e0, Alta(1, datos, 0));
    CorridaSnoc(e1, Leer(7, 1, PedirCargo(a)));
    CorridaSnoc(e2, Leer(8, 1, PedirCargo(b)));
    assert Corrida(e3) == Sistema(Tablas(map[1 := c0], []), map[7 := EscribeMovimiento(m1)][8 := EscribeMovimiento(m2)]);
    CorridaSnoc(e3, Escribir(7, true));
    CorridaSnoc(e4, Escribir(8, true));
    BalanceSnoc([], m1, 1);
    BalanceSnoc([m1], m2, 1);
    assert [] + [m1] == [m1];
  }
}
