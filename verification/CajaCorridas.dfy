/**
 Runs of the cash service: every interleaving of openings, movements, sales, annulments and counts.

 A repository call is one step.  The guard of an opening or of a movement may have run at any earlier moment,
 so an insert may come without it; a count reads its session in one step, adds up the ledger in another and
 saves the row in a third.  A transaction with several movements is as many steps: nothing below depends on them being one.
 */
module CajaCorridas {
  import opened Arithmetic
  import opened Caja
  import opened Wrappers

  /** A count that has read its session, and one that has added up the ledger too and has yet to save the row;
      `leidos` is how long the ledger was then. */
  datatype Pendiente = Leida(id: int, fila: Sesion) | Lista(id: int, fila: Sesion, leidos: nat)

  /** The tables, the counts on their way by the name of the operation, and as history the `leidos` of each saved count. */
  datatype Sistema = Sistema(t: Tablas, pendientes: map<int, Pendiente>, contados: map<int, nat>)

  /** `Insertar` is an opening: its guard, which may have run at any earlier moment, can only prevent the insert. */
  datatype Evento =
    | Insertar(punto: int, usuario: int, sucursal: Option<int>, monto: int, nuevo: int, now: int)
    | Mover(sesion: int, tipo: string, metodo: string, monto: int)
    | Anotar(sesion: int, tipo: string, metodo: string, monto: int)
    | Leer(op: int, sesion: int)
    | Contar(op: int, decl: Declaracion, obs: Option<string>, now: int)
    | Guardar(op: int, dbOk: bool)

  function Intentado(t: Tablas, r: Resultado<Tablas>): Tablas {
    if r.Ok? then r.value else t
  }

  /** The count `ev` saves, if it saves one. */
  function Guarda(s: Sistema, ev: Evento): Option<Pendiente> {
    if ev.Guardar? && ev.dbOk && ev.op in s.pendientes && s.pendientes[ev.op].Lista? && FilaGuardada(s.t, s.pendientes[ev.op].id, s.pendientes[ev.op].fila).Ok?
    then Some(s.pendientes[ev.op]) else None
  }

  function Paso(s: Sistema, ev: Evento): Sistema {
    match ev
    case Insertar(punto, usuario, sucursal, monto, nuevo, now) =>
      s.(t := Intentado(s.t, SesionCreada(s.t, nuevo, SesionNueva(punto, usuario, sucursal, monto, now))))
    case Mover(sesion, tipo, metodo, monto) => s.(t := Intentado(s.t, Registrado(s.t, sesion, tipo, metodo, monto)))
    case Anotar(sesion, tipo, metodo, monto) => s.(t := Intentado(s.t, Anotado(s.t, sesion, tipo, metodo, monto)))
    case Leer(op, sesion) =>
      if sesion in s.t.sesiones && s.t.sesiones[sesion].estado == Abierta
      then s.(pendientes := s.pendientes[op := Leida(sesion, s.t.sesiones[sesion])])
      else s
    case Contar(op, decl, obs, now) =>
      if op !in s.pendientes || s.pendientes[op].Lista? then s
      else
        var p := s.pendientes[op];
        var fila := Contada(p.fila, DeSesion(s.t.movimientos, p.id), decl, obs, now);
        s.(pendientes := if fila.Ok? then s.pendientes[op := Lista(p.id, fila.value, |s.t.movimientos|)] else s.pendientes - {op})
    case Guardar(op, _) =>
      var g := Guarda(s, ev);
      Sistema(if g.Some? then s.t.(sesiones := s.t.sesiones[g.value.id := g.value.fila]) else s.t,
              s.pendientes - {op},
              if g.Some? then s.contados[g.value.id := g.value.leidos] else s.contados)
  }

  function Corrida(s: Sistema, evs: seq<Evento>): Sistema {
    if evs == [] then s else Paso(Corrida(s, evs[..|evs| - 1]), evs[|evs| - 1])
  }

  const VACIO := Sistema(Tablas(map[], []), map[], map[])

  lemma CorridaSnoc(s: Sistema, evs: seq<Evento>, ev: Evento)
    ensures Corrida(s, evs + [ev]) == Paso(Corrida(s, evs), ev)
  {
    assert (evs + [ev])[..|evs|] == evs;
  }

  /** The three steps of a count with nothing in between are the operation undisturbed. */
  lemma ArqueoEsSusPasos(s: Sistema, op: int, id: int, decl: Declaracion, obs: Option<string>, now: int)
    requires op !in s.pendientes
    ensures var s' := Paso(Paso(Paso(s, Leer(op, id)), Contar(op, decl, obs, now)), Guardar(op, true));
            s'.pendientes == s.pendientes && s'.t == Intentado(s.t, Arqueado(s.t, id, decl, obs, now))
  {
    hide CierreCon, CierreCabe, Esperado, DeSesion;
  }

  /** And a failed save leaves everything as it was. */
  lemma ArqueoSinGuardar(s: Sistema, op: int, id: int, decl: Declaracion, obs: Option<string>, now: int)
    requires op !in s.pendientes
    ensures Paso(Paso(Paso(s, Leer(op, id)), Contar(op, decl, obs, now)), Guardar(op, false)) == s
  {
    hide CierreCon, CierreCabe, Esperado, DeSesion;
  }

  /** An opening enters an open session with nothing on it exactly when its point has none, its key is new and its amount fits. */
  lemma InsertarAbre(s: Sistema, punto: int, usuario: int, sucursal: Option<int>, monto: int, nuevo: int, now: int)
    ensures var s' := Paso(s, Insertar(punto, usuario, sucursal, monto, nuevo, now));
            var libre := forall id :: id in s.t.sesiones && s.t.sesiones[id].estado == Abierta ==> s.t.sesiones[id].puntoDeVenta != punto;
            && s'.t.movimientos == s.t.movimientos && s'.pendientes == s.pendientes && s'.contados == s.contados
            && s'.t.sesiones == if libre && nuevo !in s.t.sesiones && Abs(monto) <= 999_999_999_999_999
                                then s.t.sesiones[nuevo := Sesion(punto, usuario, sucursal, monto, Abierta, None, None, now)] else s.t.sesiones
  {
    if HayAbierta(s.t, punto) {
      var id :| id in s.t.sesiones && AbiertaEn(s.t, punto, id);
    } else {
      assert forall id :: id in s.t.sesiones ==> !AbiertaEn(s.t, punto, id);
    }
  }

  // ---------------------------------------------------------------------------------------------
  // What every run keeps
  // ---------------------------------------------------------------------------------------------

  ghost predicate UnaPorPunto(t: Tablas) {
    forall a, b :: a in t.sesiones && b in t.sesiones && a != b && t.sesiones[a].puntoDeVenta == t.sesiones[b].puntoDeVenta
      ==> t.sesiones[a].estado == Cerrada || t.sesiones[b].estado == Cerrada
  }

  ghost predicate LibroConMetodos(t: Tablas) {
    forall i :: 0 <= i < |t.movimientos| ==>
      && t.movimientos[i].sesion in t.sesiones
      && t.movimientos[i].metodo.Some? && t.movimientos[i].metodo.value in METODOS
  }

  /** The row is that of a count of the first `n` entries of the ledger: expected is the opening amount plus
      those of the session, declared = expected + deviation, and a critical deviation has notes. */
  ghost predicate CierreAl(fila: Sesion, id: int, ms: seq<Movimiento>, n: nat) {
    && n <= |ms| && fila.estado == Cerrada && fila.cierre.Some?
    && var c := fila.cierre.value;
       && c.esperado == fila.montoInicial + SumaTotal(DeSesion(ms[..n], id))
       && c.declarado.total == c.esperado + c.desvio
       && c.pct == DesvioPct(c.desvio, c.esperado) && c.clasificacion == Clasificar(c.pct)
       && (c.clasificacion == Critico ==> !SinTexto(fila.observaciones))
  }

  ghost predicate SesionCoherente(s: Sistema, id: int)
    requires id in s.t.sesiones
  {
    var fila := s.t.sesiones[id];
    if fila.estado == Abierta then fila.cierre == None
    else id in s.contados && CierreAl(fila, id, s.t.movimientos, s.contados[id])
  }

  /** What a session was opened with. */
  function Apertura(fila: Sesion): Sesion {
    fila.(estado := Abierta, cierre := None, observaciones := None)
  }

  ghost predicate PendienteCoherente(t: Tablas, p: Pendiente) {
    && p.id in t.sesiones && Apertura(p.fila) == Apertura(t.sesiones[p.id])
    && match p
       case Leida(_, fila) => fila.estado == Abierta && fila.cierre == None
       case Lista(id, fila, leidos) => CierreAl(fila, id, t.movimientos, leidos)
  }

  ghost predicate Coherente(s: Sistema) {
    && UnaPorPunto(s.t)
    && LibroConMetodos(s.t)
    && (forall id :: id in s.t.sesiones ==> SesionCoherente(s, id))
    && (forall op :: op in s.pendientes ==> PendienteCoherente(s.t, s.pendientes[op]))
  }

  lemma DeSesionSnoc(ms: seq<Movimiento>, m: Movimiento, id: int)
    ensures DeSesion(ms + [m], id) == DeSesion(ms, id) + if m.sesion == id then [m] else []
  {
    assert (ms + [m])[..|ms|] == ms;
  }

  lemma SumasSnoc(ms: seq<Movimiento>, m: Movimiento, metodo: string)
    ensures SumaTotal(ms + [m]) == SumaTotal(ms) + m.monto
    ensures Suma(ms + [m], metodo) == Suma(ms, metodo) + if m.metodo == Some(metodo) then m.monto else 0
  {
    assert (ms + [m])[..|ms|] == ms;
  }

  lemma UltimoAparte<T>(a: seq<T>, b: seq<T>)
    requires b != []
    ensures b == b[..|b| - 1] + [b[|b| - 1]]
    ensures a + b == (a + b[..|b| - 1]) + [b[|b| - 1]]
  {
  }

  lemma Asociativa<T>(a: seq<T>, b: seq<T>, c: seq<T>)
    ensures (a + b) + c == a + (b + c)
  {
  }

  lemma {:induction false} DeSesionConcat(a: seq<Movimiento>, b: seq<Movimiento>, id: int)
    ensures DeSesion(a + b, id) == DeSesion(a, id) + DeSesion(b, id)
  {
    if b == [] {
      assert a + b == a;
    } else {
      hide DeSesion;
      var front, m := b[..|b| - 1], b[|b| - 1];
      UltimoAparte(a, b);
      DeSesionConcat(a, front, id);
      DeSesionSnoc(a + front, m, id);
      DeSesionSnoc(front, m, id);
      Asociativa(DeSesion(a, id), DeSesion(front, id), if m.sesion == id then [m] else []);
    }
  }

  lemma {:induction false} SumasConcat(a: seq<Movimiento>, b: seq<Movimiento>, metodo: string)
    ensures SumaTotal(a + b) == SumaTotal(a) + SumaTotal(b)
    ensures Suma(a + b, metodo) == Suma(a, metodo) + Suma(b, metodo)
  {
    if b == [] {
      assert a + b == a;
    } else {
      hide Suma, SumaTotal;
      var front, m := b[..|b| - 1], b[|b| - 1];
      UltimoAparte(a, b);
      SumasConcat(a, front, metodo);
      SumasSnoc(a + front, m, metodo);
      SumasSnoc(front, m, metodo);
    }
  }

  lemma {:induction false} DeSesionConMetodos(ms: seq<Movimiento>, id: int)
    requires forall i :: 0 <= i < |ms| ==> ms[i].metodo.Some? && ms[i].metodo.value in METODOS
    ensures SumaDeLosCinco(DeSesion(ms, id)) == SumaTotal(DeSesion(ms, id))
  {
    if ms != [] {
      var front := ms[..|ms| - 1];
      DeSesionConMetodos(front, id);
      assert ms[|ms| - 1].metodo.Some?;
      assert (DeSesion(front, id) + [ms[|ms| - 1]])[..|DeSesion(front, id)|] == DeSesion(front, id);
    }
  }

  /** Where the schema's methods are the only ones, the expected total is the opening amount plus every movement. */
  lemma EsperadoDelLibro(t: Tablas, id: int, inicial: int)
    requires LibroConMetodos(t)
    ensures Esperado(inicial, DeSesion(t.movimientos, id)).total == inicial + SumaTotal(DeSesion(t.movimientos, id))
  {
    EsperadoEsElLibro(inicial, DeSesion(t.movimientos, id));
    DeSesionConMetodos(t.movimientos, id);
  }

  /** A step leaves the ledger alone or appends to it. */
  lemma LibroCrece(s: Sistema, ev: Evento)
    ensures s.t.movimientos <= Paso(s, ev).t.movimientos
  {
  }

  lemma CierreAlMasLargo(fila: Sesion, id: int, ms: seq<Movimiento>, ms': seq<Movimiento>, n: nat)
    requires CierreAl(fila, id, ms, n) && ms <= ms'
    ensures CierreAl(fila, id, ms', n)
  {
    assert ms'[..n] == ms[..n];
  }

  lemma PasoConservaUnaPorPunto(s: Sistema, ev: Evento)
    requires Coherente(s)
    ensures UnaPorPunto(Paso(s, ev).t)
  {
    hide CierreAl, Contada, CierreCabe, LibroConMetodos;
    if ev.Insertar? {
      assert forall id :: id in s.t.sesiones && s.t.sesiones[id].estado == Abierta && s.t.sesiones[id].puntoDeVenta == ev.punto ==> AbiertaEn(s.t, ev.punto, id);
    } else if Guarda(s, ev).Some? {
      GuardaCierra(s, ev);
    }
  }

  /** A saved count belongs to a session of the tables, keeps what it was opened with, and is closed. */
  lemma GuardaCierra(s: Sistema, ev: Evento)
    requires Coherente(s) && Guarda(s, ev).Some?
    ensures var p := Guarda(s, ev).value;
            && PendienteCoherente(s.t, p)
            && p.fila.estado == Cerrada && p.fila.puntoDeVenta == s.t.sesiones[p.id].puntoDeVenta
  {
  }

  lemma PasoConservaLibro(s: Sistema, ev: Evento)
    requires Coherente(s)
    ensures LibroConMetodos(Paso(s, ev).t)
    ensures s.t.sesiones.Keys <= Paso(s, ev).t.sesiones.Keys
  {
    hide CierreAl, Contada, CierreCabe, UnaPorPunto, SesionCoherente;
  }

  lemma PasoConservaSesion(s: Sistema, ev: Evento, id: int)
    requires Coherente(s) && id in Paso(s, ev).t.sesiones
    ensures SesionCoherente(Paso(s, ev), id)
  {
    hide CierreAl, Contada, UnaPorPunto, LibroConMetodos;
    LibroCrece(s, ev);
    if Guarda(s, ev).Some? && Guarda(s, ev).value.id == id {
      GuardaCierra(s, ev);
    } else if id in s.t.sesiones {
      assert SesionCoherente(s, id);
      if s.t.sesiones[id].estado == Cerrada {
        CierreAlMasLargo(s.t.sesiones[id], id, s.t.movimientos, Paso(s, ev).t.movimientos, s.contados[id]);
      }
    }
  }

  lemma AperturaQueda(s: Sistema, ev: Evento, id: int)
    requires Coherente(s) && id in s.t.sesiones
    ensures id in Paso(s, ev).t.sesiones && Apertura(Paso(s, ev).t.sesiones[id]) == Apertura(s.t.sesiones[id])
  {
    hide CierreAl, Contada, UnaPorPunto, LibroConMetodos, SesionCoherente;
    if Guarda(s, ev).Some? {
      GuardaCierra(s, ev);
    }
  }

  lemma ContadaCoherente(t: Tablas, p: Pendiente, decl: Declaracion, obs: Option<string>, now: int)
    requires LibroConMetodos(t) && p.Leida? && PendienteCoherente(t, p)
    ensures var fila := Contada(p.fila, DeSesion(t.movimientos, p.id), decl, obs, now);
            fila.Ok? ==> PendienteCoherente(t, Lista(p.id, fila.value, |t.movimientos|))
  {
    hide Esperado;
    EsperadoDelLibro(t, p.id, p.fila.montoInicial);
    assert t.movimientos[..|t.movimientos|] == t.movimientos;
  }

  lemma PendienteQueda(s: Sistema, ev: Evento, p: Pendiente)
    requires Coherente(s) && PendienteCoherente(s.t, p)
    ensures PendienteCoherente(Paso(s, ev).t, p)
  {
    hide CierreAl, Coherente, Paso;
    LibroCrece(s, ev);
    AperturaQueda(s, ev, p.id);
    if p.Lista? {
      CierreAlMasLargo(p.fila, p.id, s.t.movimientos, Paso(s, ev).t.movimientos, p.leidos);
    }
  }

  lemma PasoConservaPendiente(s: Sistema, ev: Evento, op: int)
    requires Coherente(s) && op in Paso(s, ev).pendientes
    ensures PendienteCoherente(Paso(s, ev).t, Paso(s, ev).pendientes[op])
  {
    hide CierreAl, Contada, UnaPorPunto, Guarda;
    if op in s.pendientes {
      PendienteQueda(s, ev, s.pendientes[op]);
      if ev.Contar? && s.pendientes[op].Leida? {
        ContadaCoherente(s.t, s.pendientes[op], ev.decl, ev.obs, ev.now);
      }
    }
    if ev.Leer? && ev.sesion in s.t.sesiones {
      assert SesionCoherente(s, ev.sesion);
    }
  }

  /** Every run from any coherent state stays coherent, whatever happens between a count and its save. */
  lemma {:induction false} CorridaCoherente(s: Sistema, evs: seq<Evento>)
    requires Coherente(s)
    ensures Coherente(Corrida(s, evs))
  {
    hide UnaPorPunto, LibroConMetodos, SesionCoherente, PendienteCoherente, Paso;
    if evs != [] {
      var antes, ev := Corrida(s, evs[..|evs| - 1]), evs[|evs| - 1];
      CorridaCoherente(s, evs[..|evs| - 1]);
      PasoConservaUnaPorPunto(antes, ev);
      PasoConservaLibro(antes, ev);
      forall id | id in Paso(antes, ev).t.sesiones ensures SesionCoherente(Paso(antes, ev), id) {
        PasoConservaSesion(antes, ev, id);
      }
      forall op | op in Paso(antes, ev).pendientes ensures PendienteCoherente(Paso(antes, ev).t, Paso(antes, ev).pendientes[op]) {
        PasoConservaPendiente(antes, ev, op);
      }
    }
  }

  // ---------------------------------------------------------------------------------------------
  // What a guard and a close are worth
  // ---------------------------------------------------------------------------------------------

  /** Some step of the run saves a count of the session. */
  ghost predicate SeGuarda(s: Sistema, evs: seq<Evento>, id: int) {
    exists k :: 0 <= k < |evs| && GuardaLa(Corrida(s, evs[..k]), evs[k], id)
  }

  predicate GuardaLa(s: Sistema, ev: Evento, id: int) {
    Guarda(s, ev).Some? && Guarda(s, ev).value.id == id
  }

  lemma SeGuardaSnoc(s: Sistema, evs: seq<Evento>, ev: Evento, id: int)
    ensures SeGuarda(s, evs + [ev], id) <==> SeGuarda(s, evs, id) || GuardaLa(Corrida(s, evs), ev, id)
  {
    var all := evs + [ev];
    assert all[..|evs|] == evs && all[|evs|] == ev;
    assert forall k :: 0 <= k < |evs| ==> all[..k] == evs[..k] && all[k] == evs[k];
  }

  lemma PasoDeEstado(s: Sistema, ev: Evento, id: int)
    requires Coherente(s) && id in s.t.sesiones
    ensures var s' := Paso(s, ev);
            && id in s'.t.sesiones
            && (s'.t.sesiones[id].estado == Abierta <==> s.t.sesiones[id].estado == Abierta && !GuardaLa(s, ev, id))
            && (!GuardaLa(s, ev, id) ==> s'.t.sesiones[id] == s.t.sesiones[id])
  {
    hide CierreAl, Contada, UnaPorPunto, LibroConMetodos, SesionCoherente;
    if Guarda(s, ev).Some? {
      GuardaCierra(s, ev);
    }
  }

  /**
   What a passed guard is worth: a session found open is still open later if and only if no count of it has
   been saved in between.  So a sale or a movement on its way lands in a closed session exactly when one has,
   and no session ever reopens.
   */
  lemma {:induction false} GuardaHastaElCierre(s: Sistema, evs: seq<Evento>, id: int)
    requires Coherente(s) && id in s.t.sesiones
    ensures var s' := Corrida(s, evs);
            && id in s'.t.sesiones
            && (s'.t.sesiones[id].estado == Abierta <==> s.t.sesiones[id].estado == Abierta && !SeGuarda(s, evs, id))
            && (!SeGuarda(s, evs, id) ==> s'.t.sesiones[id] == s.t.sesiones[id])
  {
    hide Paso, Coherente, GuardaLa;
    if evs != [] {
      var antes, ev := evs[..|evs| - 1], evs[|evs| - 1];
      assert evs == antes + [ev];
      GuardaHastaElCierre(s, antes, id);
      CorridaCoherente(s, antes);
      SeGuardaSnoc(s, antes, ev, id);
      PasoDeEstado(Corrida(s, antes), ev, id);
    } else {
      assert !SeGuarda(s, evs, id);
    }
  }

  /** No count of the session is on its way: none that has only read it, and none with other figures than its row has. */
  ghost predicate SinOtrasCuentas(s: Sistema, id: int)
    requires id in s.t.sesiones
  {
    forall op :: op in s.pendientes && s.pendientes[op].id == id ==> EsLaMisma(s, op, id)
  }

  predicate EsLaMisma(s: Sistema, op: int, id: int)
    requires id in s.t.sesiones && op in s.pendientes
  {
    s.pendientes[op].Lista? && (FilaGuardada(s.t, id, s.pendientes[op].fila).Ok? ==> s.pendientes[op].fila == s.t.sesiones[id])
  }

  lemma PasoFijo(s: Sistema, ev: Evento, id: int)
    requires Coherente(s) && id in s.t.sesiones && s.t.sesiones[id].estado == Cerrada && SinOtrasCuentas(s, id)
    ensures var s' := Paso(s, ev);
            id in s'.t.sesiones && s'.t.sesiones[id] == s.t.sesiones[id] && SinOtrasCuentas(s', id)
  {
    hide CierreAl, Contada, CierreCabe, UnaPorPunto, LibroConMetodos, SesionCoherente;
  }

  lemma {:induction false} CorridaFija(s: Sistema, evs: seq<Evento>, id: int)
    requires Coherente(s) && id in s.t.sesiones && s.t.sesiones[id].estado == Cerrada && SinOtrasCuentas(s, id)
    ensures var s' := Corrida(s, evs);
            id in s'.t.sesiones && s'.t.sesiones[id] == s.t.sesiones[id] && SinOtrasCuentas(s', id)
  {
    hide Paso, Coherente, SinOtrasCuentas;
    if evs != [] {
      var antes, ev := evs[..|evs| - 1], evs[|evs| - 1];
      assert evs == antes + [ev];
      CorridaFija(s, antes, id);
      CorridaCoherente(s, antes);
      PasoFijo(Corrida(s, antes), ev, id);
    }
  }

  lemma {:induction false} CorridaCons(s: Sistema, ev: Evento, evs: seq<Evento>)
    ensures Corrida(s, [ev] + evs) == Corrida(Paso(s, ev), evs)
  {
    hide Paso;
    if evs == [] {
      assert [ev] + evs == [] + [ev];
      CorridaSnoc(s, [], ev);
    } else {
      var front, last := evs[..|evs| - 1], evs[|evs| - 1];
      CorridaCons(s, ev, front);
      assert [ev] + evs == ([ev] + front) + [last] && evs == front + [last];
      CorridaSnoc(s, [ev] + front, last);
      CorridaSnoc(Paso(s, ev), front, last);
    }
  }

  const NADA := Declaracion(0, 0, 0, 0, 0)

  /** Declaring nothing at all can always be saved, with notes, while the expected total fits its column. */
  lemma NadaCabe(esperado: int, now: int)
    requires CabeMonto(esperado)
    ensures CierreCabe(CierreCon(esperado, NADA, now))
  {
    if esperado != 0 {
      PctDebajo(-esperado, esperado, 100_000);
    }
  }

  /** Some run in which a count that has only read its session saves it with another closing time: once entries enough
      are made for the expected total to fit its column, it adds up and saves. */
  lemma OtraCuenta(s: Sistema, op: int, id: int) returns (evs: seq<Evento>)
    requires Coherente(s) && id in s.t.sesiones && s.t.sesiones[id].estado == Cerrada
    requires op in s.pendientes && s.pendientes[op].Leida? && s.pendientes[op].id == id
    ensures id in Corrida(s, evs).t.sesiones && Corrida(s, evs).t.sesiones[id] != s.t.sesiones[id]
    decreases Abs(s.pendientes[op].fila.montoInicial + SumaTotal(DeSesion(s.t.movimientos, id)))
  {
    hide Coherente, DeSesion, SumaTotal, Paso, CierreCabe;
    var e := s.pendientes[op].fila.montoInicial + SumaTotal(DeSesion(s.t.movimientos, id));
    if CabeMonto(e) {
      evs := CuentaYGuarda(s, op, id);
    } else {
      var x := if e > 0 then -999_999_999_999_999 else 999_999_999_999_999;
      var ev := Anotar(id, "anulacion", "efectivo", x);
      UnAsiento(s, id, x);
      CoherenteTras(s, ev);
      evs := OtraCuenta(Paso(s, ev), op, id);
      CorridaCons(s, ev, evs);
      evs := [ev] + evs;
    }
  }

  lemma CoherenteTras(s: Sistema, ev: Evento)
    requires Coherente(s)
    ensures Coherente(Paso(s, ev))
  {
    CorridaCoherente(s, [ev]);
    assert [] + [ev] == [ev];
    CorridaSnoc(s, [], ev);
  }

  lemma UnAsiento(s: Sistema, id: int, x: int)
    requires id in s.t.sesiones && CabeMonto(x)
    ensures var s' := Paso(s, Anotar(id, "anulacion", "efectivo", x));
            && s'.t.sesiones == s.t.sesiones && s'.pendientes == s.pendientes
            && SumaTotal(DeSesion(s'.t.movimientos, id)) == SumaTotal(DeSesion(s.t.movimientos, id)) + x
  {
    hide DeSesion, SumaTotal;
    TiposDistintos();
    LibroMasUno(s.t.movimientos, Movimiento(id, "anulacion", Some("efectivo"), x), id);
  }

  lemma CuentaYGuarda(s: Sistema, op: int, id: int) returns (evs: seq<Evento>)
    requires Coherente(s) && id in s.t.sesiones && s.t.sesiones[id].estado == Cerrada
    requires op in s.pendientes && s.pendientes[op].Leida? && s.pendientes[op].id == id
    requires CabeMonto(s.pendientes[op].fila.montoInicial + SumaTotal(DeSesion(s.t.movimientos, id)))
    ensures id in Corrida(s, evs).t.sesiones && Corrida(s, evs).t.sesiones[id] != s.t.sesiones[id]
  {
    hide CierreCabe, Esperado, DesvioPct, SumaTotal, DeSesion;
    assert SesionCoherente(s, id);
    var despues := s.t.sesiones[id].cierre.value.closedAt + 1;
    var contar := Contar(op, NADA, Some("x"), despues);
    var fila := s.pendientes[op].fila;
    EsperadoDelLibro(s.t, id, fila.montoInicial);
    NadaCabe(Esperado(fila.montoInicial, DeSesion(s.t.movimientos, id)).total, despues);
    evs := [] + [contar] + [Guardar(op, true)];
    CorridaSnoc(s, [], contar);
    CorridaSnoc(s, [] + [contar], Guardar(op, true));
    assert Paso(s, contar).pendientes[op].fila.cierre.value.closedAt == despues;
  }

  ghost predicate QuedaFija(s: Sistema, id: int)
    requires id in s.t.sesiones
  {
    forall evs :: id in Corrida(s, evs).t.sesiones && Corrida(s, evs).t.sesiones[id] == s.t.sesiones[id]
  }

  /**
   The row of a closed session never changes again if and only if no other count of it is on its way: two counts
   that both found it open close it twice, and the second overwrites the first.
   */
  lemma CerradaNoCambia(s: Sistema, id: int)
    requires Coherente(s) && id in s.t.sesiones && s.t.sesiones[id].estado == Cerrada
    ensures QuedaFija(s, id) <==> SinOtrasCuentas(s, id)
  {
    hide Coherente, CierreCabe, Paso;
    if SinOtrasCuentas(s, id) {
      forall evs ensures id in Corrida(s, evs).t.sesiones && Corrida(s, evs).t.sesiones[id] == s.t.sesiones[id] {
        CorridaFija(s, evs, id);
      }
    } else {
      var op :| op in s.pendientes && s.pendientes[op].id == id && !EsLaMisma(s, op, id);
      if s.pendientes[op].Leida? {
        var evs := OtraCuenta(s, op, id);
        assert !QuedaFija(s, id);
      } else {
        CorridaSnoc(s, [], Guardar(op, true));
        GuardaOtra(s, op, id);
        assert Corrida(s, [] + [Guardar(op, true)]).t.sesiones[id] == s.pendientes[op].fila;
      }
    }
  }

  lemma GuardaOtra(s: Sistema, op: int, id: int)
    requires op in s.pendientes && s.pendientes[op].Lista? && s.pendientes[op].id == id
    requires FilaGuardada(s.t, id, s.pendientes[op].fila).Ok?
    ensures id in Paso(s, Guardar(op, true)).t.sesiones && Paso(s, Guardar(op, true)).t.sesiones[id] == s.pendientes[op].fila
  {
  }

  // ---------------------------------------------------------------------------------------------
  // Reports
  // ---------------------------------------------------------------------------------------------

  /** The entries of the session past the first `n` of the ledger. */
  function Desde(t: Tablas, n: nat, id: int): seq<Movimiento>
    requires n <= |t.movimientos|
  {
    DeSesion(t.movimientos[n..], id)
  }

  lemma DesdeSuma(t: Tablas, n: nat, id: int, metodo: string)
    requires n <= |t.movimientos|
    ensures SumaTotal(DeSesion(t.movimientos, id)) == SumaTotal(DeSesion(t.movimientos[..n], id)) + SumaTotal(Desde(t, n, id))
    ensures Suma(DeSesion(t.movimientos, id), metodo) == Suma(DeSesion(t.movimientos[..n], id), metodo) + Suma(Desde(t, n, id), metodo)
  {
    assert t.movimientos[..n] + t.movimientos[n..] == t.movimientos;
    DeSesionConcat(t.movimientos[..n], t.movimientos[n..], id);
    SumasConcat(DeSesion(t.movimientos[..n], id), Desde(t, n, id), metodo);
  }

  /**
   In every state reached from empty tables each point of sale has at most one open session.  A report reads the
   row, and then, `mas` later, the ledger.  Of a closed session it shows as expected what the count expected plus
   whatever has been entered since that count, so declared = expected + deviation holds in it if and only if
   those later entries add up to nothing.
   */
  lemma CicloDeVida(evs: seq<Evento>, mas: seq<Evento>, id: int, otros: Otros)
    requires id in Corrida(VACIO, evs).t.sesiones
    ensures UnaPorPunto(Corrida(VACIO, evs).t)
    ensures var s := Corrida(VACIO, evs);
            var t' := Corrida(s, mas).t;
            var r := ReporteCon(id, s.t.sesiones[id], DeSesion(t'.movimientos, id), otros);
            if r.estado == Abierta then r.declarado == None && r.desvio == None && r.closedAt == None
            else
              && id in s.contados && s.contados[id] <= |t'.movimientos|
              && s.t.sesiones[id].cierre.Some? && r.declarado.Some? && r.desvio.Some? && r.closedAt.Some?
              && var despues := SumaTotal(Desde(t', s.contados[id], id));
                 && r.esperado.total == s.t.sesiones[id].cierre.value.esperado + despues
                 && (r.declarado.value.total == r.esperado.total + r.desvio.value.monto <==> despues == 0)
  {
    hide Esperado, DeSesion, SumaTotal, Desde, Paso;
    CorridaCoherente(VACIO, evs);
    var s := Corrida(VACIO, evs);
    CorridaCoherente(s, mas);
    LibroCreceEnCorrida(s, mas);
    assert SesionCoherente(s, id);
    var fila, ms := s.t.sesiones[id], Corrida(s, mas).t.movimientos;
    if fila.estado == Cerrada {
      CierreAlMasLargo(fila, id, s.t.movimientos, ms, s.contados[id]);
      EsperadoDelLibro(Corrida(s, mas).t, id, fila.montoInicial);
      DesdeSuma(Corrida(s, mas).t, s.contados[id], id, "qr");
    }
  }

  lemma {:induction false} LibroCreceEnCorrida(s: Sistema, evs: seq<Evento>)
    ensures s.t.movimientos <= Corrida(s, evs).t.movimientos
  {
    hide Paso;
    if evs != [] {
      LibroCreceEnCorrida(s, evs[..|evs| - 1]);
      LibroCrece(Corrida(s, evs[..|evs| - 1]), evs[|evs| - 1]);
    }
  }

  lemma EsperadoCrece(t: Tablas, t': Tablas, id: int)
    requires id in t.sesiones && id in t'.sesiones && t.sesiones[id] == t'.sesiones[id] && t.movimientos <= t'.movimientos
    requires LibroConMetodos(t) && LibroConMetodos(t')
    ensures var nuevos := Desde(t', |t.movimientos|, id);
            && EsperadoEn(t', id).total == EsperadoEn(t, id).total + SumaTotal(nuevos)
            && (EsperadoEn(t', id) == EsperadoEn(t, id) <==> forall metodo :: metodo in METODOS ==> Suma(nuevos, metodo) == 0)
  {
    hide Desde, DeSesion, Suma, SumaTotal;
    var n := |t.movimientos|;
    assert t'.movimientos[..n] == t.movimientos;
    EsperadoDelLibro(t, id, t.sesiones[id].montoInicial);
    EsperadoDelLibro(t', id, t.sesiones[id].montoInicial);
    DesdeSuma(t', n, id, "efectivo");
    DesdeSuma(t', n, id, "debito");
    DesdeSuma(t', n, id, "credito");
    DesdeSuma(t', n, id, "transferencia");
    DesdeSuma(t', n, id, "qr");
  }

  /**
   Later reports of a closed session with no other count on its way: after any run they repeat the earlier one
   if and only if what was entered since adds up to nothing for each of the five methods and the user's name and
   the count of sales are shown as before; and the expected total moves by what was entered.
   */
  lemma ReporteTrasElCierre(s: Sistema, evs: seq<Evento>, id: int, antes: Otros, ahora: Otros)
    requires Coherente(s) && id in s.t.sesiones && s.t.sesiones[id].estado == Cerrada && SinOtrasCuentas(s, id)
    ensures var t' := Corrida(s, evs).t;
            && id in t'.sesiones && s.t.movimientos <= t'.movimientos
            && var nuevos := Desde(t', |s.t.movimientos|, id);
               && ReporteDe(t', id, ahora).esperado.total == ReporteDe(s.t, id, antes).esperado.total + SumaTotal(nuevos)
               && (ReporteDe(t', id, ahora) == ReporteDe(s.t, id, antes) <==>
                     && (forall metodo :: metodo in METODOS ==> Suma(nuevos, metodo) == 0)
                     && ahora.Nombre() == antes.Nombre() && ahora.Ventas() == antes.Ventas())
  {
    hide Desde, Esperado, Paso;
    CorridaFija(s, evs, id);
    CorridaCoherente(s, evs);
    LibroCreceEnCorrida(s, evs);
    EsperadoCrece(s.t, Corrida(s, evs).t, id);
  }

  /** A session opened with `inicial`, a sale of `venta` in cash, an exact count, its save, and the sale annulled. */
  function VentaAnulada(inicial: int, venta: int): seq<Evento> {
    [Insertar(1, 1, None, inicial, 1, 0)] + [Anotar(1, "venta", "efectivo", venta)]
    + [Leer(9, 1)] + [Contar(9, Declaracion(inicial + venta, 0, 0, 0, 0), None, 5)] + [Guardar(9, true)]
    + [Anotar(1, "anulacion", "efectivo", -venta)]
  }

  lemma UnaVenta(inicial: int, venta: int)
    ensures var t := Tablas(map[1 := SesionNueva(1, 1, None, inicial, 0)], [Movimiento(1, "venta", Some("efectivo"), venta)]);
            EsperadoEn(t, 1) == Montos(inicial + venta, 0, 0, 0, 0, inicial + venta)
  {
    var m := Movimiento(1, "venta", Some("efectivo"), venta);
    MetodosDistintos();
    assert [] + [m] == [m];
    DeSesionSnoc([], m, 1);
    SumasSnoc([], m, "efectivo");
    SumasSnoc([], m, "debito");
    SumasSnoc([], m, "credito");
    SumasSnoc([], m, "transferencia");
    SumasSnoc([], m, "qr");
  }

  lemma CuentaExacta(inicial: int, venta: int)
    requires 0 < inicial + venta < E12
    ensures var t := Tablas(map[1 := SesionNueva(1, 1, None, inicial, 0)], [Movimiento(1, "venta", Some("efectivo"), venta)]);
            var c := CierreDe(t, 1, Declaracion(inicial + venta, 0, 0, 0, 0), 5);
            c == Cierre(inicial + venta, Montos(inicial + venta, 0, 0, 0, 0, inicial + venta), 0, 0, Normal, 5) && CierreCabe(c)
  {
    hide EsperadoEn;
    UnaVenta(inicial, venta);
    PctDebajo(0, inicial + venta, 1);
  }

  /** Annulling a sale after the close: the report then expects less than was counted, and still shows no deviation. */
  lemma AnulacionTrasElCierre(inicial: int, venta: int, otros: Otros)
    requires 0 <= inicial < E12 && 0 < venta < E12 && inicial + venta < E12
    ensures var t := Corrida(VACIO, VentaAnulada(inicial, venta)).t;
            && 1 in t.sesiones && t.sesiones[1].estado == Cerrada
            && var r := ReporteDe(t, 1, otros);
               && r.declarado.Some? && r.declarado.value.total == inicial + venta
               && r.desvio == Some(DesvioResponse(0, 0, Normal))
               && r.esperado.total == inicial
  {
    hide Corrida, CierreCon, Esperado, CierreCabe, SumaTotal, DeSesion;
    var decl := Declaracion(inicial + venta, 0, 0, 0, 0);
    var m1, m2 := Movimiento(1, "venta", Some("efectivo"), venta), Movimiento(1, "anulacion", Some("efectivo"), -venta);
    var e0: seq<Evento> := [];
    var e1 := e0 + [Insertar(1, 1, None, inicial, 1, 0)];
    var e2 := e1 + [Anotar(1, "venta", "efectivo", venta)];
    var e3 := e2 + [Leer(9, 1)];
    var e4 := e3 + [Contar(9, decl, None, 5)];
    var e5 := e4 + [Guardar(9, true)];
    AntesDeTodo();
    CorridaSnoc(VACIO, e0, Insertar(1, 1, None, inicial, 1, 0));
    CorridaSnoc(VACIO, e1, Anotar(1, "venta", "efectivo", venta));
    CorridaSnoc(VACIO, e2, Leer(9, 1));
    CorridaSnoc(VACIO, e3, Contar(9, decl, None, 5));
    CorridaSnoc(VACIO, e4, Guardar(9, true));
    CorridaSnoc(VACIO, e5, Anotar(1, "anulacion", "efectivo", -venta));
    CuentaExacta(inicial, venta);
    assert Corrida(VACIO, e2).t == Tablas(map[1 := SesionNueva(1, 1, None, inicial, 0)], [m1]);
    assert VentaAnulada(inicial, venta) == e5 + [Anotar(1, "anulacion", "efectivo", -venta)];
    var t := Corrida(VACIO, VentaAnulada(inicial, venta)).t;
    assert t.movimientos == [m1] + [m2];
    CorridaCoherente(VACIO, VentaAnulada(inicial, venta));
    EsperadoDelLibro(t, 1, inicial);
    DosMovimientos(m1, m2);
  }

  lemma DosMovimientos(m1: Movimiento, m2: Movimiento)
    requires m1.sesion == 1 && m2.sesion == 1
    ensures SumaTotal(DeSesion([m1] + [m2], 1)) == m1.monto + m2.monto
  {
    DeSesionSnoc([], m1, 1);
    DeSesionSnoc([m1], m2, 1);
    SumasSnoc([], m1, "");
    SumasSnoc([m1], m2, "");
    assert [] + [m1] == [m1];
  }

  /** A session opened with `inicial` and read by two counts: the second closes it exactly, and then the first, which
      declares nothing, closes it again. */
  function DosCierres(inicial: int): seq<Evento> {
    [Insertar(1, 1, None, inicial, 1, 0)] + [Leer(8, 1)] + [Leer(9, 1)]
    + [Contar(9, Declaracion(inicial, 0, 0, 0, 0), None, 5)] + [Guardar(9, true)]
    + [Contar(8, NADA, Some("x"), 6)] + [Guardar(8, true)]
  }

  lemma CierresDe(inicial: int)
    requires 0 < inicial < E12
    ensures Esperado(inicial, DeSesion([], 1)).total == inicial
    ensures var c := CierreCon(inicial, Declaracion(inicial, 0, 0, 0, 0), 5); c.desvio == 0 && c.clasificacion == Normal && CierreCabe(c)
    ensures var c := CierreCon(inicial, NADA, 6); c.desvio == -inicial && CierreCabe(c)
  {
    PctDebajo(0, inicial, 1);
    NadaCabe(inicial, 6);
  }

  /** After the first close: the exact row is stored, and the other count has still only read the session. */
  lemma PrimerCierre(inicial: int)
    requires 0 < inicial < E12
    ensures var nueva := SesionNueva(1, 1, None, inicial, 0);
            var cierre := CierreCon(inicial, Declaracion(inicial, 0, 0, 0, 0), 5);
            Corrida(VACIO, DosCierres(inicial)[..5])
              == Sistema(Tablas(map[1 := nueva.(estado := Cerrada, cierre := Some(cierre))], []), map[8 := Leida(1, nueva)], map[1 := 0])
  {
    hide Corrida, CierreCon, Esperado, CierreCabe, DeSesion;
    var exacta := Contar(9, Declaracion(inicial, 0, 0, 0, 0), None, 5);
    var e0: seq<Evento> := [];
    var e1 := e0 + [Insertar(1, 1, None, inicial, 1, 0)];
    var e2 := e1 + [Leer(8, 1)];
    var e3 := e2 + [Leer(9, 1)];
    var e4 := e3 + [exacta];
    AntesDeTodo();
    CierresDe(inicial);
    CorridaSnoc(VACIO, e0, Insertar(1, 1, None, inicial, 1, 0));
    CorridaSnoc(VACIO, e1, Leer(8, 1));
    CorridaSnoc(VACIO, e2, Leer(9, 1));
    CorridaSnoc(VACIO, e3, exacta);
    CorridaSnoc(VACIO, e4, Guardar(9, true));
    assert DosCierres(inicial)[..5] == e4 + [Guardar(9, true)];
    assert Corrida(VACIO, e3).t == Tablas(map[1 := SesionNueva(1, 1, None, inicial, 0)], []);
  }

  /** While a count has only read its session the close another one saved is not final: here the exact one is overwritten. */
  lemma DosCierresDeUna(inicial: int)
    requires 0 < inicial < E12
    ensures var evs := DosCierres(inicial);
            var uno, dos := Corrida(VACIO, evs[..5]).t, Corrida(VACIO, evs).t;
            && 1 in uno.sesiones && uno.sesiones[1].cierre.Some? && uno.sesiones[1].cierre.value.desvio == 0
            && 1 in dos.sesiones && dos.sesiones[1].cierre.Some? && dos.sesiones[1].cierre.value.desvio == -inicial
  {
    hide Corrida, CierreCon, Esperado, CierreCabe, DeSesion;
    var e5 := DosCierres(inicial)[..5];
    var e6 := e5 + [Contar(8, NADA, Some("x"), 6)];
    PrimerCierre(inicial);
    CierresDe(inicial);
    CorridaSnoc(VACIO, e5, Contar(8, NADA, Some("x"), 6));
    CorridaSnoc(VACIO, e6, Guardar(8, true));
    assert DosCierres(inicial) == e6 + [Guardar(8, true)];
  }

  lemma AntesDeTodo()
    ensures Corrida(VACIO, []) == VACIO && Coherente(VACIO)
  {
  }

  // ---------------------------------------------------------------------------------------------
  // The ledger in terms of what was asked for
  // ---------------------------------------------------------------------------------------------

  /** Whether the step enters a movement in the ledger. */
  predicate Anota(s: Sistema, ev: Evento) {
    match ev
    case Mover(sesion, tipo, metodo, monto) => Registrado(s.t, sesion, tipo, metodo, monto).Ok?
    case Anotar(sesion, tipo, metodo, monto) => Anotado(s.t, sesion, tipo, metodo, monto).Ok?
    case _ => false
  }

  /** Whether it enters one of that kind in the session. */
  predicate Entra(s: Sistema, ev: Evento, id: int, tipo: string) {
    Anota(s, ev) && (ev.Mover? || ev.Anotar?) && ev.sesion == id && ev.tipo == tipo
  }

  /** The amounts, as they were asked for, of the movements of that kind entered in the session along the run. */
  function Pedido(s: Sistema, evs: seq<Evento>, id: int, tipo: string): int {
    if evs == [] then 0
    else
      var antes, ev := evs[..|evs| - 1], evs[|evs| - 1];
      Pedido(s, antes, id, tipo) + if Entra(Corrida(s, antes), ev, id, tipo) then ev.monto else 0
  }

  function Asiento(ev: Evento): Movimiento
    requires ev.Mover? || ev.Anotar?
  {
    Movimiento(ev.sesion, ev.tipo, Some(ev.metodo), if ev.tipo == "egreso_manual" then -ev.monto else ev.monto)
  }

  lemma PasoLibro(s: Sistema, ev: Evento)
    ensures Anota(s, ev) ==> (ev.Mover? || ev.Anotar?) && ev.tipo in TIPOS && Paso(s, ev).t.movimientos == s.t.movimientos + [Asiento(ev)]
    ensures !Anota(s, ev) ==> Paso(s, ev).t.movimientos == s.t.movimientos
  {
  }

  lemma LibroMasUno(ms: seq<Movimiento>, m: Movimiento, id: int)
    ensures SumaTotal(DeSesion(ms + [m], id)) == SumaTotal(DeSesion(ms, id)) + if m.sesion == id then m.monto else 0
  {
    hide DeSesion, SumaTotal, Suma;
    var de := DeSesion(ms, id);
    DeSesionSnoc(ms, m, id);
    SumasSnoc(de, m, "");
    assert de + [] == de;
  }

  lemma PasoPedido(s: Sistema, ev: Evento, id: int)
    ensures SumaTotal(DeSesion(Paso(s, ev).t.movimientos, id)) == SumaTotal(DeSesion(s.t.movimientos, id))
            + (if Entra(s, ev, id, "ingreso_manual") || Entra(s, ev, id, "venta") || Entra(s, ev, id, "anulacion") then ev.monto else 0)
            - (if Entra(s, ev, id, "egreso_manual") then ev.monto else 0)
  {
    hide Paso, Anota, SumaTotal, DeSesion;
    TiposDistintos();
    PasoLibro(s, ev);
    if Anota(s, ev) {
      LibroMasUno(s.t.movimientos, Asiento(ev), id);
    }
  }

  lemma TiposDistintos()
    ensures "venta" != "ingreso_manual" && "venta" != "egreso_manual" && "venta" != "anulacion"
    ensures "ingreso_manual" != "egreso_manual" && "ingreso_manual" != "anulacion" && "egreso_manual" != "anulacion"
  {
    assert "venta"[0] == 'v' && "ingreso_manual"[0] == 'i' && "egreso_manual"[0] == 'e' && "anulacion"[0] == 'a';
  }

  lemma {:induction false} LibroDeLoPedido(evs: seq<Evento>, id: int)
    ensures SumaTotal(DeSesion(Corrida(VACIO, evs).t.movimientos, id))
         == Pedido(VACIO, evs, id, "ingreso_manual") - Pedido(VACIO, evs, id, "egreso_manual")
            + Pedido(VACIO, evs, id, "venta") + Pedido(VACIO, evs, id, "anulacion")
  {
    hide Paso, Entra, DeSesion, SumaTotal;
    TiposDistintos();
    if evs != [] {
      LibroDeLoPedido(evs[..|evs| - 1], id);
      PasoPedido(Corrida(VACIO, evs[..|evs| - 1]), evs[|evs| - 1], id);
      UnSoloTipo(Corrida(VACIO, evs[..|evs| - 1]), evs[|evs| - 1], id);
    } else {
      SinLibro(id);
    }
  }

  lemma SinLibro(id: int)
    ensures SumaTotal(DeSesion(VACIO.t.movimientos, id)) == 0
  {
  }

  lemma UnSoloTipo(s: Sistema, ev: Evento, id: int)
    ensures forall a, b :: Entra(s, ev, id, a) && Entra(s, ev, id, b) ==> a == b
  {
  }

  /** In every run the expected total is the opening amount, plus the ingresos asked for, less the egresos asked
      for, plus the sales, plus the (negative) annulments. */
  lemma EsperadoDeLoPedido(evs: seq<Evento>, id: int, otros: Otros)
    requires id in Corrida(VACIO, evs).t.sesiones
    ensures var r := ReporteDe(Corrida(VACIO, evs).t, id, otros);
            r.esperado.total == r.montoInicial
              + Pedido(VACIO, evs, id, "ingreso_manual") - Pedido(VACIO, evs, id, "egreso_manual")
              + Pedido(VACIO, evs, id, "venta") + Pedido(VACIO, evs, id, "anulacion")
  {
    hide Pedido, Esperado, Paso;
    CorridaCoherente(VACIO, evs);
    EsperadoDelLibro(Corrida(VACIO, evs).t, id, Corrida(VACIO, evs).t.sesiones[id].montoInicial);
    LibroDeLoPedido(evs, id);
  }
}
