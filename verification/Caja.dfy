/**
 Cash sessions (backend/internal/service/caja_service.go, backend/internal/repository/caja_repo.go):
 opening, the immutable ledger of movements, and closing with a blind count.

 Amounts are in cents, percentages in hundredths of a percent.  The methods are the operations with nobody
 else at work; `CajaCorridas` interleaves their repository calls.
 */
module Caja {
  import opened Arithmetic
  import opened Wrappers

  type Resultado<T> = Result<T, Error>

  datatype Error =
    | SesionNoEncontrada
    | SesionCerrada
    | CajaDuplicada
    | FaltanObservaciones
    | SinSesionAbierta
    | RestriccionViolada
    | DesbordeNumerico
    | FallaBase

  datatype Estado = Abierta | Cerrada
  datatype Clasificacion = Normal | Advertencia | Critico

  datatype Montos = Montos(efectivo: int, debito: int, credito: int, transferencia: int, qr: int, total: int)

  function ConTotal(efectivo: int, debito: int, credito: int, transferencia: int, qr: int): Montos {
    Montos(efectivo, debito, credito, transferencia, qr, efectivo + debito + credito + transferencia + qr)
  }

  datatype Cierre = Cierre(esperado: int, declarado: Montos, desvio: int, pct: int, clasificacion: Clasificacion, closedAt: int)

  datatype Sesion = Sesion(puntoDeVenta: int, usuario: int, sucursal: Option<int>, montoInicial: int, estado: Estado,
                           cierre: Option<Cierre>, observaciones: Option<string>, openedAt: int)

  datatype Movimiento = Movimiento(sesion: int, tipo: string, metodo: Option<string>, monto: int)

  datatype Declaracion = Declaracion(efectivo: int, debito: int, credito: int, transferencia: int, qr: int)

  /** The two tables. */
  datatype Tablas = Tablas(sesiones: map<int, Sesion>, movimientos: seq<Movimiento>)

  const METODOS := {"efectivo", "debito", "credito", "transferencia", "qr"}
  const TIPOS := {"venta", "ingreso_manual", "egreso_manual", "anulacion"}

  // ---------------------------------------------------------------------------------------------
  // Column types and constraints of the schema
  // ---------------------------------------------------------------------------------------------

  /** What a DECIMAL(15,2) column holds, in cents. */
  predicate CabeMonto(x: int) { Abs(x) < 1_000_000_000_000_000 }

  /** What the DECIMAL(5,2) column desvio_pct holds, in hundredths of a percent. */
  predicate CabePct(x: int) { Abs(x) < 100_000 }

  /** What the five DECIMAL(12,2) columns of the declared breakdown hold, in cents. */
  predicate CabeDesglose(x: int) { Abs(x) < E12 }

  predicate MontosCaben(c: Cierre) {
    && CabeMonto(c.esperado) && CabeMonto(c.declarado.total) && CabeMonto(c.desvio)
    && CabeDesglose(c.declarado.efectivo) && CabeDesglose(c.declarado.debito) && CabeDesglose(c.declarado.credito)
    && CabeDesglose(c.declarado.transferencia) && CabeDesglose(c.declarado.qr)
  }

  predicate CierreCabe(c: Cierre) {
    MontosCaben(c) && CabePct(c.pct)
  }

  // ---------------------------------------------------------------------------------------------
  // Sums over the ledger
  // ---------------------------------------------------------------------------------------------

  function DeSesion(ms: seq<Movimiento>, id: int): seq<Movimiento> {
    if ms == [] then []
    else
      var resto := DeSesion(ms[..|ms| - 1], id);
      if ms[|ms| - 1].sesion == id then resto + [ms[|ms| - 1]] else resto
  }

  /** The sum of the movements paid by `metodo`. */
  function Suma(ms: seq<Movimiento>, metodo: string): int {
    if ms == [] then 0
    else
      var m := ms[|ms| - 1];
      Suma(ms[..|ms| - 1], metodo) + if m.metodo == Some(metodo) then m.monto else 0
  }

  /** The sum of the movements whose method is one of the five. */
  function SumaDeLosCinco(ms: seq<Movimiento>): int {
    if ms == [] then 0
    else
      var m := ms[|ms| - 1];
      SumaDeLosCinco(ms[..|ms| - 1]) + if m.metodo.Some? && m.metodo.value in METODOS then m.monto else 0
  }

  function SumaTotal(ms: seq<Movimiento>): int {
    if ms == [] then 0 else SumaTotal(ms[..|ms| - 1]) + ms[|ms| - 1].monto
  }

  function Esperado(inicial: int, ms: seq<Movimiento>): Montos {
    ConTotal(inicial + Suma(ms, "efectivo"), Suma(ms, "debito"), Suma(ms, "credito"), Suma(ms, "transferencia"), Suma(ms, "qr"))
  }

  datatype Fila = Fila(metodo: string, total: int)

  /** What `SELECT metodo_pago, SUM(monto) ... GROUP BY metodo_pago` may answer, in any order of rows. */
  ghost predicate EsAgrupacion(filas: seq<Fila>, ms: seq<Movimiento>) {
    && (forall i, j :: 0 <= i < j < |filas| ==> filas[i].metodo != filas[j].metodo)
    && (forall i :: 0 <= i < |filas| ==> filas[i].total == Suma(ms, filas[i].metodo))
    && (forall metodo :: (forall i :: 0 <= i < |filas| ==> filas[i].metodo != metodo) ==> Suma(ms, metodo) == 0)
  }

  /** The loop of `SumMovimientosByMetodo` over the rows of the query. */
  method AcumularPorMetodo(filas: seq<Fila>, ghost ms: seq<Movimiento>) returns (result: map<string, int>)
    requires EsAgrupacion(filas, ms)
    ensures METODOS <= result.Keys
    ensures forall metodo :: metodo in result ==> result[metodo] == Suma(ms, metodo)
  {
    result := map["efectivo" := 0, "debito" := 0, "credito" := 0, "transferencia" := 0, "qr" := 0];
    for i := 0 to |filas|
      invariant METODOS <= result.Keys
      invariant forall metodo :: metodo in result ==>
                  result[metodo] == if exists j :: 0 <= j < i && filas[j].metodo == metodo then Suma(ms, metodo) else 0
    {
      var fila := filas[i];
      var previo := if fila.metodo in result then result[fila.metodo] else 0;
      assert forall j :: 0 <= j < i ==> filas[j].metodo != fila.metodo;
      result := result[fila.metodo := previo + fila.total];
    }
  }

  /** The methods that occur, each once. */
  function Distintos(ms: seq<Movimiento>): (ds: seq<string>)
    ensures forall i, j :: 0 <= i < j < |ds| ==> ds[i] != ds[j]
    ensures forall metodo :: metodo in ds <==> exists i :: 0 <= i < |ms| && ms[i].metodo == Some(metodo)
  {
    if ms == [] then []
    else
      var antes, m := ms[..|ms| - 1], ms[|ms| - 1];
      var ds := Distintos(antes);
      assert forall i :: 0 <= i < |antes| ==> antes[i] == ms[i];
      if m.metodo.Some? && m.metodo.value !in ds then ds + [m.metodo.value] else ds
  }

  lemma {:induction false} SumaAusente(ms: seq<Movimiento>, metodo: string)
    requires forall i :: 0 <= i < |ms| ==> ms[i].metodo != Some(metodo)
    ensures Suma(ms, metodo) == 0
  {
    if ms != [] {
      SumaAusente(ms[..|ms| - 1], metodo);
    }
  }

  /** A grouping the query engine may answer with; only `EsAgrupacion` of it is used. */
  function Agrupar(ms: seq<Movimiento>): (filas: seq<Fila>)
    ensures EsAgrupacion(filas, ms)
  {
    var ds := Distintos(ms);
    var filas := seq(|ds|, i requires 0 <= i < |ds| => Fila(ds[i], Suma(ms, ds[i])));
    AgruparCompleta(filas, ms, ds);
    filas
  }

  lemma AgruparCompleta(filas: seq<Fila>, ms: seq<Movimiento>, ds: seq<string>)
    requires ds == Distintos(ms) && |filas| == |ds|
    requires forall i :: 0 <= i < |ds| ==> filas[i].metodo == ds[i]
    ensures forall metodo :: (forall i :: 0 <= i < |filas| ==> filas[i].metodo != metodo) ==> Suma(ms, metodo) == 0
  {
    forall metodo | forall i :: 0 <= i < |filas| ==> filas[i].metodo != metodo
      ensures Suma(ms, metodo) == 0
    {
      assert metodo !in ds;
      SumaAusente(ms, metodo);
    }
  }

  /** The map loop followed by the five-method sum is the opening amount plus every movement paid by one of the five. */
  lemma {:induction false} EsperadoEsElLibro(inicial: int, ms: seq<Movimiento>)
    ensures Esperado(inicial, ms).total == inicial + SumaDeLosCinco(ms)
  {
    if ms != [] {
      EsperadoEsElLibro(inicial, ms[..|ms| - 1]);
      var m := ms[|ms| - 1];
      assert m.metodo.Some? && m.metodo.value in METODOS ==>
        m.metodo.value == "efectivo" || m.metodo.value == "debito" || m.metodo.value == "credito" || m.metodo.value == "transferencia" || m.metodo.value == "qr";
      MetodosDistintos();
    }
  }

  lemma MetodosDistintos()
    ensures "efectivo" != "debito" && "efectivo" != "credito" && "efectivo" != "transferencia" && "efectivo" != "qr"
    ensures "debito" != "credito" && "debito" != "transferencia" && "debito" != "qr"
    ensures "credito" != "transferencia" && "credito" != "qr" && "transferencia" != "qr"
  {
    assert "efectivo"[0] == 'e' && "debito"[0] == 'd' && "credito"[0] == 'c' && "transferencia"[0] == 't' && "qr"[0] == 'q';
  }

  // ---------------------------------------------------------------------------------------------
  // The deviation
  // ---------------------------------------------------------------------------------------------

  /** `desvio.Div(esperado)` keeps 16 decimals, `Mul(100).Round(2)` then rounds again to hundredths of a percent. */
  function DesvioPct(desvio: int, esperado: int): int {
    if esperado == 0 then 0 else RoundDiv(RoundDiv(desvio * E16, esperado) * 100, E14)
  }

  function Clasificar(pct: int): Clasificacion {
    if Abs(pct) <= 100 then Normal
    else if Abs(pct) <= 500 then Advertencia
    else Critico
  }

  /** The double rounding stays below `n` hundredths exactly when |d|/|e| is below (n - 1/2)/10^4 less half a unit of the 16th decimal. */
  lemma PctDebajo(desvio: int, esperado: int, n: int)
    requires esperado != 0
    ensures Abs(DesvioPct(desvio, esperado)) < n
       <==> 2 * E16 * Abs(desvio) < ((2 * n - 1) * E12 - 1) * Abs(esperado)
  {
    var d, e := Abs(desvio), Abs(esperado);
    var q := RoundDiv(desvio * E16, esperado);
    RoundDivAbs(desvio * E16, esperado);
    RoundDivAbs(q * 100, E14);
    var q' := RoundDiv(d * E16, e);
    assert Abs(q) == q' && Abs(q * 100) == q' * 100;
    RoundsBelow(q' * 100, E14, n);
    // 200 q' < (2n - 1) 10^14  iff  q' < (2n - 1) 10^12 / 2, a whole number
    var k := (2 * n - 1) * (E12 / 2);
    assert RoundDiv(q' * 100, E14) < n <==> q' < k;
    RoundsBelow(d * E16, e, k);
    assert 2 * k - 1 == (2 * n - 1) * E12 - 1;
  }

  /** The percentage has the sign of the quotient, and none when nothing is expected or nothing deviates. */
  lemma PctConSigno(desvio: int, esperado: int)
    ensures DesvioPct(-desvio, esperado) == -DesvioPct(desvio, esperado)
    ensures desvio >= 0 && esperado > 0 ==> DesvioPct(desvio, esperado) >= 0
    ensures desvio == 0 || esperado == 0 ==> DesvioPct(desvio, esperado) == 0
    ensures esperado < 0 ==> DesvioPct(desvio, esperado) == -DesvioPct(desvio, -esperado)
  {
    hide RoundDiv;
    if esperado != 0 {
      var a := desvio * E16;
      assert (-desvio) * E16 == -a;
      RoundDivSigns(a, esperado);
      RoundDivSigns(RoundDiv(a, esperado) * 100, E14);
      if desvio >= 0 && esperado > 0 {
        RoundDivBounds(a, esperado);
        RoundDivBounds(RoundDiv(a, esperado) * 100, E14);
      }
      if desvio == 0 {
        RoundDivExact(0, Abs(esperado));
        RoundDivExact(0, E14);
      }
    }
  }

  /** Each class in terms of the two amounts, for every pair of amounts with a non-zero expectation. */
  lemma ClasificacionExacta(desvio: int, esperado: int)
    requires esperado != 0
    ensures var c, d, e := Clasificar(DesvioPct(desvio, esperado)), Abs(desvio), Abs(esperado);
            && (c == Normal <==> 2 * E16 * d < (201 * E12 - 1) * e)
            && (c == Critico <==> 2 * E16 * d >= (1001 * E12 - 1) * e)
  {
    PctDebajo(desvio, esperado, 101);
    PctDebajo(desvio, esperado, 501);
  }

  /** Whether the code's class is the one exact rounding (half away from zero, once) would give. */
  ghost predicate ComoRedondeoUnico(desvio: int, esperado: int) {
    var c, d, e := Clasificar(DesvioPct(desvio, esperado)), Abs(desvio), Abs(esperado);
    && (c == Normal <==> 20000 * d < 201 * e)
    && (c == Critico <==> 20000 * d >= 1001 * e)
  }

  /** `d/e` lies below the threshold `n/20000`, but within half a unit of the 16th decimal of it. */
  predicate EnLaFranja(d: int, e: int, n: int) {
    0 < E12 * (n * e - 20000 * d) <= e
  }

  /** The two roundings differ from one exactly in two thin strips under the thresholds. */
  lemma RedondeoDobleExacto(desvio: int, esperado: int)
    requires esperado != 0
    ensures ComoRedondeoUnico(desvio, esperado)
       <==> !EnLaFranja(Abs(desvio), Abs(esperado), 201) && !EnLaFranja(Abs(desvio), Abs(esperado), 1001)
  {
    hide DesvioPct, Clasificar;
    ClasificacionExacta(desvio, esperado);
    FranjaBajoUmbral(Abs(desvio), Abs(esperado), 201);
    FranjaBajoUmbral(Abs(desvio), Abs(esperado), 1001);
  }

  lemma FranjaBajoUmbral(d: nat, e: nat, n: int)
    ensures EnLaFranja(d, e, n) <==> 20000 * d < n * e && !(2 * E16 * d < (n * E12 - 1) * e)
  {
    assert (n * E12 - 1) * e == E12 * (n * e) - e;
  }

  /** Up to ten thousand million pesos of expected total the strips are empty: double rounding is harmless. */
  lemma RedondeoDobleInocuo(desvio: int, esperado: int)
    requires 0 < Abs(esperado) < E12
    ensures ComoRedondeoUnico(desvio, esperado)
  {
    RedondeoDobleExacto(desvio, esperado);
  }

  /** Above that, inside what the columns hold, it is not: a deviation just under 1.005 % is classed as over it. */
  lemma RedondeoDobleVisible()
    ensures CabeMonto(FRANJA_E) && CabeMonto(FRANJA_D)
    ensures 20000 * FRANJA_D < 201 * FRANJA_E && Clasificar(DesvioPct(FRANJA_D, FRANJA_E)) == Advertencia
  {
    ClasificacionExacta(FRANJA_D, FRANJA_E);
  }

  const FRANJA_E := 1_000_000_019_801
  const FRANJA_D := 10_050_000_199

  // ---------------------------------------------------------------------------------------------
  // Operations on the tables
  // ---------------------------------------------------------------------------------------------

  predicate AbiertaEn(t: Tablas, punto: int, id: int) {
    id in t.sesiones && t.sesiones[id].estado == Abierta && t.sesiones[id].puntoDeVenta == punto
  }

  predicate HayAbierta(t: Tablas, punto: int) {
    exists id :: id in t.sesiones && AbiertaEn(t, punto, id)
  }

  /** `CreateSesion`: primary key, column type and the partial unique index uq_caja_abierta_por_punto. */
  function SesionCreada(t: Tablas, id: int, s: Sesion): Resultado<Tablas> {
    if id in t.sesiones then Err(RestriccionViolada)
    else if !CabeMonto(s.montoInicial) then Err(DesbordeNumerico)
    else if s.estado == Abierta && HayAbierta(t, s.puntoDeVenta) then Err(CajaDuplicada)
    else Ok(t.(sesiones := t.sesiones[id := s]))
  }

  /** `CreateMovimiento`: foreign key, CHECK constraints and column type. */
  function MovimientoCreado(t: Tablas, m: Movimiento): Resultado<Tablas> {
    if m.sesion !in t.sesiones || m.tipo !in TIPOS || (m.metodo.Some? && m.metodo.value !in METODOS) then Err(RestriccionViolada)
    else if !CabeMonto(m.monto) then Err(DesbordeNumerico)
    else Ok(t.(movimientos := t.movimientos + [m]))
  }

  function SesionNueva(punto: int, usuario: int, sucursal: Option<int>, monto: int, now: int): Sesion {
    Sesion(punto, usuario, sucursal, monto, Abierta, None, None, now)
  }

  /** An insert whose guard, if it has one, ran at some earlier moment: a sale, its annulment, a manual movement. */
  function Anotado(t: Tablas, sesion: int, tipo: string, metodo: string, monto: int): Resultado<Tablas> {
    MovimientoCreado(t, Movimiento(sesion, tipo, Some(metodo), if tipo == "egreso_manual" then -monto else monto))
  }

  /** `RegistrarMovimiento` with its guard holding right up to the insert. */
  function Registrado(t: Tablas, sesion: int, tipo: string, metodo: string, monto: int): Resultado<Tablas> {
    if sesion !in t.sesiones then Err(SesionNoEncontrada)
    else if t.sesiones[sesion].estado != Abierta then Err(SinSesionAbierta)
    else Anotado(t, sesion, tipo, metodo, monto)
  }

  function EsperadoEn(t: Tablas, id: int): Montos
    requires id in t.sesiones
  {
    Esperado(t.sesiones[id].montoInicial, DeSesion(t.movimientos, id))
  }

  function Declarado(decl: Declaracion): Montos {
    ConTotal(decl.efectivo, decl.debito, decl.credito, decl.transferencia, decl.qr)
  }

  /** What a count finds that expects `esperado`. */
  function CierreCon(esperado: int, decl: Declaracion, now: int): Cierre {
    var declarado := Declarado(decl);
    var desvio := declarado.total - esperado;
    var pct := DesvioPct(desvio, esperado);
    Cierre(esperado, declarado, desvio, pct, Clasificar(pct), now)
  }

  function CierreDe(t: Tablas, id: int, decl: Declaracion, now: int): Cierre
    requires id in t.sesiones
  {
    CierreCon(EsperadoEn(t, id).total, decl, now)
  }

  predicate SinTexto(obs: Option<string>) {
    obs.None? || obs.value == ""
  }

  /** The row a count wants saved, from the row it read and the movements it then added up. */
  function Contada(fila: Sesion, ms: seq<Movimiento>, decl: Declaracion, obs: Option<string>, now: int): Resultado<Sesion> {
    var c := CierreCon(Esperado(fila.montoInicial, ms).total, decl, now);
    if c.clasificacion == Critico && SinTexto(obs) then Err(FaltanObservaciones)
    else Ok(fila.(estado := Cerrada, cierre := Some(c), observaciones := obs))
  }

  /** `UpdateSesion`: the whole row is saved, if its columns hold it. */
  function FilaGuardada(t: Tablas, id: int, fila: Sesion): Resultado<Tablas> {
    if fila.cierre.Some? && !CierreCabe(fila.cierre.value) then Err(DesbordeNumerico)
    else Ok(t.(sesiones := t.sesiones[id := fila]))
  }

  /** Which of the database calls of `Arqueo` fail: the search for the caller's session, its read, the sums, the save. */
  datatype FallasDeArqueo = FallasDeArqueo(busqueda: bool, lectura: bool, sumas: bool, guardado: bool)

  const SIN_FALLAS := FallasDeArqueo(false, false, false, false)

  /** A count with nobody else at work between its reads and its write. A failed read counts as "not found". */
  function ArqueadoCon(t: Tablas, id: int, decl: Declaracion, obs: Option<string>, now: int, fallas: FallasDeArqueo): Resultado<Tablas> {
    if fallas.lectura || id !in t.sesiones then Err(SesionNoEncontrada)
    else if t.sesiones[id].estado != Abierta then Err(SesionCerrada)
    else if fallas.sumas then Err(FallaBase)
    else
      var fila := Contada(t.sesiones[id], DeSesion(t.movimientos, id), decl, obs, now);
      if fila.Err? then Err(fila.error)
      else if fallas.guardado then Err(FallaBase)
      else FilaGuardada(t, id, fila.value)
  }

  function Arqueado(t: Tablas, id: int, decl: Declaracion, obs: Option<string>, now: int): Resultado<Tablas> {
    ArqueadoCon(t, id, decl, obs, now, SIN_FALLAS)
  }

  datatype DesvioResponse = DesvioResponse(monto: int, porcentaje: int, clasificacion: Clasificacion)

  /** `ArqueoResponse` */
  datatype Respuesta = Respuesta(sesion: int, esperado: Montos, declarado: Montos, desvio: DesvioResponse, estado: Estado)

  function RespuestaDe(t: Tablas, id: int, decl: Declaracion, now: int): Respuesta
    requires id in t.sesiones
  {
    var c := CierreDe(t, id, decl, now);
    Respuesta(id, EsperadoEn(t, id), Declarado(decl), DesvioResponse(c.desvio, c.pct, c.clasificacion), Cerrada)
  }

  /** What other tables answer when a report is built: the user's name if the user was loaded, the number of sales if the count worked. */
  datatype Otros = Otros(usuario: Option<string>, ventas: Option<int>) {
    function Nombre(): string {
      if usuario.Some? then usuario.value else ""
    }

    function Ventas(): int {
      if ventas.Some? then ventas.value else 0
    }
  }

  datatype Reporte = Reporte(sesion: int, puntoDeVenta: int, usuario: string, montoInicial: int, esperado: Montos, estado: Estado,
                             observaciones: Option<string>, openedAt: int, ventasDelDia: int,
                             declarado: Option<Montos>, desvio: Option<DesvioResponse>, closedAt: Option<int>)

  /** The report made of a row and of the movements of its session, which are read after it. */
  function ReporteCon(id: int, s: Sesion, ms: seq<Movimiento>, otros: Otros): Reporte {
    Reporte(id, s.puntoDeVenta, otros.Nombre(), s.montoInicial, Esperado(s.montoInicial, ms), s.estado,
            s.observaciones, s.openedAt, otros.Ventas(),
            if s.cierre.Some? then Some(s.cierre.value.declarado) else None,
            if s.cierre.Some? then Some(DesvioResponse(s.cierre.value.desvio, s.cierre.value.pct, s.cierre.value.clasificacion)) else None,
            if s.cierre.Some? then Some(s.cierre.value.closedAt) else None)
  }

  function ReporteDe(t: Tablas, id: int, otros: Otros): Reporte
    requires id in t.sesiones
  {
    ReporteCon(id, t.sesiones[id], DeSesion(t.movimientos, id), otros)
  }

  /** An open session of the caller. */
  predicate Propia(t: Tablas, usuario: Option<int>, id: int) {
    id in t.sesiones && t.sesiones[id].estado == Abierta && usuario == Some(t.sesiones[id].usuario)
  }

  /** From `t` to `t'` the session was closed with the computed figures, or refused with nothing changed. */
  ghost predicate EsArqueo(t: Tablas, t': Tablas, id: int, decl: Declaracion, obs: Option<string>, now: int, fallas: FallasDeArqueo, r: Resultado<Respuesta>) {
    var res := ArqueadoCon(t, id, decl, obs, now, fallas);
    if res.Ok? then r == Ok(RespuestaDe(t, id, decl, now)) && t' == res.value
    else r == Err(res.error) && t' == t
  }

  /** Each expected amount is the sum of the session's movements paid that way, the opening amount being cash. */
  ghost predicate EsEsperado(m: Montos, inicial: int, ms: seq<Movimiento>) {
    && m.efectivo == inicial + Suma(ms, "efectivo") && m.debito == Suma(ms, "debito") && m.credito == Suma(ms, "credito")
    && m.transferencia == Suma(ms, "transferencia") && m.qr == Suma(ms, "qr")
    && m.total == m.efectivo + m.debito + m.credito + m.transferencia + m.qr
  }

  /** What a close leaves behind and answers, field by field. */
  ghost predicate EsCierre(t: Tablas, t': Tablas, decl: Declaracion, obs: Option<string>, now: int, r: Respuesta) {
    && r.sesion in t.sesiones && t.sesiones[r.sesion].estado == Abierta && r.estado == Cerrada
    && EsEsperado(r.esperado, t.sesiones[r.sesion].montoInicial, DeSesion(t.movimientos, r.sesion))
    && r.declarado.efectivo == decl.efectivo && r.declarado.debito == decl.debito && r.declarado.credito == decl.credito
    && r.declarado.transferencia == decl.transferencia && r.declarado.qr == decl.qr
    && r.declarado.total == decl.efectivo + decl.debito + decl.credito + decl.transferencia + decl.qr
    && r.desvio.monto == r.declarado.total - r.esperado.total
    && r.desvio.porcentaje == DesvioPct(r.desvio.monto, r.esperado.total) && r.desvio.clasificacion == Clasificar(r.desvio.porcentaje)
    && t'.movimientos == t.movimientos
    && t'.sesiones == t.sesiones[r.sesion := t.sesiones[r.sesion].(
         estado := Cerrada, observaciones := obs,
         cierre := Some(Cierre(r.esperado.total, r.declarado, r.desvio.monto, r.desvio.porcentaje, r.desvio.clasificacion, now)))]
  }

  /** Which of the database calls of `Abrir` fail: the guard's read, the insert, the reload, the report's sums. */
  datatype Fallas = Fallas(guardia: bool, insercion: bool, recarga: bool, reporte: bool)

  /** The service over its repository. */
  class CajaService {
    var sesiones: map<int, Sesion>
    var movimientos: seq<Movimiento>

    ghost function Estado(): Tablas
      reads this
    {
      Tablas(sesiones, movimientos)
    }

    constructor ()
      ensures Estado() == Tablas(map[], [])
    {
      sesiones, movimientos := map[], [];
    }

    method SumMovimientosByMetodo(id: int) returns (sums: map<string, int>)
      ensures METODOS <= sums.Keys
      ensures forall metodo :: metodo in sums ==> sums[metodo] == Suma(DeSesion(movimientos, id), metodo)
    {
      var ms := DeSesion(movimientos, id);
      sums := AcumularPorMetodo(Agrupar(ms), ms);
    }

    method EsperadoDe(id: int, inicial: int) returns (m: Montos)
      ensures m == Esperado(inicial, DeSesion(movimientos, id))
      ensures EsEsperado(m, inicial, DeSesion(movimientos, id))
    {
      var sums := SumMovimientosByMetodo(id);
      m := ConTotal(inicial + sums["efectivo"], sums["debito"], sums["credito"], sums["transferencia"], sums["qr"]);
    }

    /** The report of a session that has been read; `falla` is whether adding up its movements fails. */
    method BuildReporte(id: int, otros: Otros, falla: bool) returns (r: Resultado<Reporte>)
      requires id in sesiones
      ensures r == if falla then Err(FallaBase) else Ok(ReporteDe(Estado(), id, otros))
      ensures !falla ==>
                var s, rep := sesiones[id], r.value;
                && EsEsperado(rep.esperado, s.montoInicial, DeSesion(movimientos, id))
                && rep.sesion == id && rep.puntoDeVenta == s.puntoDeVenta && rep.montoInicial == s.montoInicial
                && rep.estado == s.estado && rep.observaciones == s.observaciones && rep.openedAt == s.openedAt
                && rep.usuario == (if otros.usuario.Some? then otros.usuario.value else "")
                && rep.ventasDelDia == (if otros.ventas.Some? then otros.ventas.value else 0)
                && (s.cierre.None? ==> rep.declarado == None && rep.desvio == None && rep.closedAt == None)
                && (s.cierre.Some? ==>
                      var c := s.cierre.value;
                      && rep.declarado == Some(c.declarado) && rep.closedAt == Some(c.closedAt)
                      && rep.desvio == Some(DesvioResponse(c.desvio, c.pct, c.clasificacion)))
    {
      if falla {
        return Err(FallaBase);
      }
      var s := sesiones[id];
      var esperado := EsperadoDe(id, s.montoInicial);
      var nombre := "";
      if otros.usuario.Some? {
        nombre := otros.usuario.value;
      }
      var rep := Reporte(id, s.puntoDeVenta, nombre, s.montoInicial, esperado, s.estado, s.observaciones, s.openedAt, 0, None, None, None);
      if otros.ventas.Some? {
        rep := rep.(ventasDelDia := otros.ventas.value);
      }
      if s.cierre.Some? {
        var c := s.cierre.value;
        rep := rep.(declarado := Some(c.declarado), desvio := Some(DesvioResponse(c.desvio, c.pct, c.clasificacion)), closedAt := Some(c.closedAt));
      }
      return Ok(rep);
    }

    method CreateSesion(id: int, s: Sesion) returns (r: Resultado<()>)
      modifies this
      ensures var res := SesionCreada(old(Estado()), id, s);
              if res.Ok? then r.Ok? && Estado() == res.value else r == Err(res.error) && Estado() == old(Estado())
      ensures movimientos == old(movimientos) && sesiones == if r.Ok? then old(sesiones)[id := s] else old(sesiones)
      ensures r.Ok? <==>
                && id !in old(sesiones) && -1_000_000_000_000_000 < s.montoInicial < 1_000_000_000_000_000
                && (s.estado == Abierta ==>
                      forall otra :: otra in old(sesiones) && old(sesiones)[otra].estado == Abierta ==> old(sesiones)[otra].puntoDeVenta != s.puntoDeVenta)
    {
      if id in sesiones {
        return Err(RestriccionViolada);
      }
      if !CabeMonto(s.montoInicial) {
        return Err(DesbordeNumerico);
      }
      if s.estado == Abierta && exists otra :: otra in sesiones && AbiertaEn(Tablas(sesiones, movimientos), s.puntoDeVenta, otra) {
        return Err(CajaDuplicada);
      }
      sesiones := sesiones[id := s];
      return Ok(());
    }

    /** `nuevo` is the identifier the database generates for the row, if it comes to that; `sucursal` is the user's
        branch, None also when the user could not be read.  A failed guard counts as "none open", and a failure after the insert is answered with an error though the session is stored. */
    method Abrir(punto: int, usuario: int, sucursal: Option<int>, monto: int, nuevo: int, now: int, fallas: Fallas, otros: Otros) returns (r: Resultado<Reporte>)
      modifies this
      ensures !fallas.guardia && HayAbierta(old(Estado()), punto) ==>
                && Estado() == old(Estado())
                && if fallas.reporte then r == Err(FallaBase)
                   else r.Ok? && AbiertaEn(Estado(), punto, r.value.sesion) && r.value == ReporteDe(Estado(), r.value.sesion, otros)
      ensures fallas.guardia || !HayAbierta(old(Estado()), punto) ==>
                var res := if fallas.insercion then Err(FallaBase) else SesionCreada(old(Estado()), nuevo, SesionNueva(punto, usuario, sucursal, monto, now));
                if res.Err? then Estado() == old(Estado()) && r == Err(res.error)
                else
                  && Estado() == res.value
                  && r == if fallas.recarga || fallas.reporte then Err(FallaBase) else Ok(ReporteDe(Estado(), nuevo, otros))
      ensures var libre := forall otra :: otra in old(sesiones) && old(sesiones)[otra].estado == Abierta ==> old(sesiones)[otra].puntoDeVenta != punto;
              && movimientos == old(movimientos)
              && sesiones == (if !fallas.insercion && libre && nuevo !in old(sesiones) && -1_000_000_000_000_000 < monto < 1_000_000_000_000_000
                              then old(sesiones)[nuevo := Sesion(punto, usuario, sucursal, monto, Abierta, None, None, now)]
                              else old(sesiones))
              && (r.Ok? ==> r.value.sesion in sesiones && r.value.puntoDeVenta == punto && r.value.estado == Abierta)
    {
      if !fallas.guardia {
        if id :| id in sesiones && AbiertaEn(Tablas(sesiones, movimientos), punto, id) {
          r := BuildReporte(id, otros, fallas.reporte);
          return;
        }
      }
      if fallas.insercion {
        return Err(FallaBase);
      }
      var creada := CreateSesion(nuevo, Sesion(punto, usuario, sucursal, monto, Abierta, None, None, now));
      if creada.Err? {
        return Err(creada.error);
      }
      if fallas.recarga {
        return Err(FallaBase);
      }
      r := BuildReporte(nuevo, otros, fallas.reporte);
    }

    /** What its success is worth to the caller, see `CajaCorridas.GuardaHastaElCierre`. */
    method FindSesionAbierta(sesion: int) returns (r: Resultado<()>)
      ensures r.Ok? <==> exists punto :: AbiertaEn(Estado(), punto, sesion)
      ensures r.Ok? <==> sesion in sesiones && sesiones[sesion].estado == Abierta
      ensures r == Err(SesionNoEncontrada) <==> sesion !in sesiones
      ensures r.Err? ==> r.error == SesionNoEncontrada || r.error == SinSesionAbierta
    {
      if sesion !in sesiones {
        return Err(SesionNoEncontrada);
      }
      if sesiones[sesion].estado != Abierta {
        return Err(SinSesionAbierta);
      }
      assert AbiertaEn(Estado(), sesiones[sesion].puntoDeVenta, sesion);
      return Ok(());
    }

    method RegistrarMovimiento(sesion: int, tipo: string, metodo: string, monto: int) returns (r: Resultado<()>)
      modifies this
      ensures var res := Registrado(old(Estado()), sesion, tipo, metodo, monto);
              if res.Ok? then r.Ok? && Estado() == res.value else r == Err(res.error) && Estado() == old(Estado())
      ensures sesiones == old(sesiones)
      ensures movimientos == if r.Err? then old(movimientos)
                             else old(movimientos) + [Movimiento(sesion, tipo, Some(metodo), if tipo == "egreso_manual" then -monto else monto)]
      ensures r.Ok? <==>
                && sesion in old(sesiones) && old(sesiones)[sesion].estado == Abierta
                && tipo in {"venta", "ingreso_manual", "egreso_manual", "anulacion"}
                && metodo in {"efectivo", "debito", "credito", "transferencia", "qr"}
                && -1_000_000_000_000_000 < monto < 1_000_000_000_000_000
    {
      var abierta := FindSesionAbierta(sesion);
      if abierta.Err? {
        return abierta;
      }
      var importe := monto;
      if tipo == "egreso_manual" {
        importe := -monto;
      }
      var m := Movimiento(sesion, tipo, Some(metodo), importe);
      var res := MovimientoCreado(Tablas(sesiones, movimientos), m);
      if res.Err? {
        return Err(res.error);
      }
      movimientos := movimientos + [m];
      return Ok(());
    }

    method ArqueoDe(id: int, decl: Declaracion, obs: Option<string>, now: int, fallas: FallasDeArqueo) returns (r: Resultado<Respuesta>)
      modifies this
      ensures EsArqueo(old(Estado()), Estado(), id, decl, obs, now, fallas, r)
      ensures r.Ok? ==> r.value.sesion == id && EsCierre(old(Estado()), Estado(), decl, obs, now, r.value)
      ensures r.Ok? <==>
                && id in old(sesiones) && old(sesiones)[id].estado == Abierta && !fallas.lectura && !fallas.sumas && !fallas.guardado
                && var c := CierreDe(old(Estado()), id, decl, now);
                   CierreCabe(c) && (c.clasificacion == Critico ==> obs.Some? && obs.value != "")
      ensures r.Err? ==>
                && sesiones == old(sesiones) && movimientos == old(movimientos)
                && r.error == if id !in old(sesiones) || fallas.lectura then SesionNoEncontrada
                              else if old(sesiones)[id].estado == Cerrada then SesionCerrada
                              else if fallas.sumas then FallaBase
                              else if CierreDe(old(Estado()), id, decl, now).clasificacion == Critico && (obs.None? || obs.value == "") then FaltanObservaciones
                              else if fallas.guardado then FallaBase
                              else DesbordeNumerico
    {
      hide RoundDiv, DeSesion, Suma, CierreCabe;
      if fallas.lectura || id !in sesiones {
        return Err(SesionNoEncontrada);
      }
      var s := sesiones[id];
      if s.estado != Abierta {
        return Err(SesionCerrada);
      }
      if fallas.sumas {
        return Err(FallaBase);
      }
      var esperado := EsperadoDe(id, s.montoInicial);
      var declarado := ConTotal(decl.efectivo, decl.debito, decl.credito, decl.transferencia, decl.qr);
      var desvioMonto := declarado.total - esperado.total;
      var desvioPct := 0;
      if esperado.total != 0 {
        desvioPct := RoundDiv(RoundDiv(desvioMonto * E16, esperado.total) * 100, E14);
      }
      var clasificacion := Clasificar(desvioPct);
      if clasificacion == Critico && (obs.None? || obs.value == "") {
        return Err(FaltanObservaciones);
      }
      var c := Cierre(esperado.total, declarado, desvioMonto, desvioPct, clasificacion, now);
      if fallas.guardado {
        return Err(FallaBase);
      }
      if !CierreCabe(c) {
        return Err(DesbordeNumerico);
      }
      sesiones := sesiones[id := s.(estado := Cerrada, cierre := Some(c), observaciones := obs)];
      r := Ok(Respuesta(id, esperado, declarado, DesvioResponse(desvioMonto, desvioPct, clasificacion), Cerrada));
    }

    /** `sesion` None stands for the empty identifier: the caller's own open session is looked up. */
    method Arqueo(sesion: Option<int>, usuario: Option<int>, decl: Declaracion, obs: Option<string>, now: int,
                  fallas: FallasDeArqueo) returns (r: Resultado<Respuesta>)
      modifies this
      ensures r.Ok? ==> EsCierre(old(Estado()), Estado(), decl, obs, now, r.value)
      ensures r.Ok? && sesion.Some? ==> r.value.sesion == sesion.value
      ensures r.Ok? && sesion.None? ==> Propia(old(Estado()), usuario, r.value.sesion)
      ensures sesion.Some? ==> EsArqueo(old(Estado()), Estado(), sesion.value, decl, obs, now, fallas, r)
      ensures sesion.None? && (fallas.busqueda || forall id :: !Propia(old(Estado()), usuario, id)) ==> r == Err(SinSesionAbierta) && Estado() == old(Estado())
      ensures sesion.None? && !fallas.busqueda && (exists id :: Propia(old(Estado()), usuario, id)) ==>
                exists id :: Propia(old(Estado()), usuario, id) && EsArqueo(old(Estado()), Estado(), id, decl, obs, now, fallas, r)
    {
      var id: int;
      if sesion.None? {
        if usuario.None? || fallas.busqueda {
          return Err(SinSesionAbierta);
        }
        if propia :| propia in sesiones && Propia(Tablas(sesiones, movimientos), usuario, propia) {
          id := propia;
        } else {
          return Err(SinSesionAbierta);
        }
      } else {
        id := sesion.value;
      }
      r := ArqueoDe(id, decl, obs, now, fallas);
    }
  }

  // ---------------------------------------------------------------------------------------------
  // Exactly when a count closes its session
  // ---------------------------------------------------------------------------------------------

  /**
   A blind count closes an open session exactly when a critical deviation has the supervisor's notes, the
   amounts fit their columns, and the deviation stays below what DECIMAL(5,2) holds of it, 1000 %.
   */
  lemma CuandoCierra(t: Tablas, id: int, decl: Declaracion, obs: Option<string>, now: int)
    requires id in t.sesiones && t.sesiones[id].estado == Abierta
    ensures var c := CierreDe(t, id, decl, now);
            Arqueado(t, id, decl, obs, now).Ok? <==> (
              && (c.clasificacion == Critico ==> !SinTexto(obs))
              && MontosCaben(c)
              && (c.esperado != 0 ==> 2 * E16 * Abs(c.desvio) < (199_999 * E12 - 1) * Abs(c.esperado)))
  {
    var c := CierreDe(t, id, decl, now);
    if c.esperado != 0 {
      PctDebajo(c.desvio, c.esperado, 100_000);
    }
  }

  /** For instance: a drawer opened with 100.00 and counted at 1100.00 cannot be closed, notes or not. */
  lemma MilPorCientoNoCierra(obs: string, now: int)
    requires obs != ""
    ensures var t := Tablas(map[1 := SesionNueva(1, 1, None, 10_000, 0)], []);
            Arqueado(t, 1, Declaracion(110_000, 0, 0, 0, 0), Some(obs), now) == Err(DesbordeNumerico)
  {
    var t := Tablas(map[1 := SesionNueva(1, 1, None, 10_000, 0)], []);
    var c := CierreDe(t, 1, Declaracion(110_000, 0, 0, 0, 0), now);
    assert c.esperado == 10_000 && c.desvio == 100_000;
    PctDebajo(c.desvio, c.esperado, 100_000);
    PctDebajo(c.desvio, c.esperado, 501);
  }

  /** What the columns hold: 13, 10 and 3 digits before the decimal point. */
  lemma AnchosDeColumna(x: int)
    ensures CabeMonto(x) <==> -999_999_999_999_999 <= x <= 999_999_999_999_999
    ensures CabeDesglose(x) <==> -999_999_999_999 <= x <= 999_999_999_999
    ensures CabePct(x) <==> -99_999 <= x <= 99_999
  {
  }

  /** And one opened with 10^12 cents, which its column holds, cannot be closed on an exact count in cash, which its column does not. */
  lemma DesgloseNoCabe(obs: Option<string>, now: int)
    ensures var t := Tablas(map[1 := SesionNueva(1, 1, None, E12, 0)], []);
            && CabeMonto(E12) && CierreDe(t, 1, Declaracion(E12, 0, 0, 0, 0), now).desvio == 0
            && Arqueado(t, 1, Declaracion(E12, 0, 0, 0, 0), obs, now) == Err(DesbordeNumerico)
  {
    var t := Tablas(map[1 := SesionNueva(1, 1, None, E12, 0)], []);
    var c := CierreDe(t, 1, Declaracion(E12, 0, 0, 0, 0), now);
    assert c.esperado == E12 && c.desvio == 0;
    PctDebajo(c.desvio, c.esperado, 101);
  }

  /** An empty drawer: with nothing expected, any declaration at all is classed as normal. */
  lemma SinEsperadoTodoEsNormal(t: Tablas, id: int, decl: Declaracion, now: int)
    requires id in t.sesiones
    requires CierreDe(t, id, decl, now).esperado == 0
    ensures CierreDe(t, id, decl, now).clasificacion == Normal
    ensures CierreDe(t, id, decl, now).desvio == decl.efectivo + decl.debito + decl.credito + decl.transferencia + decl.qr
  {
  }
}
