/**
 Purchase-order arithmetic (`Crear`, backend/internal/service/compra_service.go).

 Prices are in cents and percentages in hundredths of a percent, two decimals each as their columns hold.
 Computed amounts are in units of 10^-16, the precision at which the decimal library divides.
 */
module Compras {
  import opened Arithmetic
  import opened Wrappers

  datatype ItemRequest = ItemRequest(precio: int, descuentoPct: int, impuestoPct: int, cantidad: int)

  datatype Estado = Pendiente | Pagada

  /** What the request says; an identifier or a date is None when it does not parse. */
  datatype Solicitud = Solicitud(proveedor: Option<int>, fechaCompra: Option<int>, fechaVencimiento: Option<int>,
                                 moneda: string, deposito: string, items: seq<ItemRequest>, pagos: seq<int>)

  datatype Compra = Compra(proveedor: int, fechaCompra: int, fechaVencimiento: int, moneda: string, deposito: string,
                           subtotal: int, descuento: int, total: int, estado: Estado, lineas: seq<int>, pagos: seq<int>)

  datatype Error = ProveedorInvalido | FechaCompraInvalida | FechaVencimientoInvalida | CantidadInvalida | FallaBase

  /** One line: what each assignment of the loop body computes. */
  datatype Linea = Linea(base: int, descuento: int, impuesto: int, total: int)

  function Calcular(it: ItemRequest): Linea {
    // precio * cantidad has two decimals, times a percentage four; dividing by 100 keeps sixteen
    var base := it.precio * it.cantidad;
    var descuento := RoundDiv(base * it.descuentoPct * E16, 10_000 * 100);
    var conDescuento := base * E14 - descuento;
    // sixteen decimals times a percentage eighteen
    var impuesto := RoundDiv(conDescuento * it.impuestoPct, 100 * 100);
    Linea(base * E14, descuento, impuesto, conDescuento + impuesto)
  }

  /** No division loses a digit: each figure is the exact product, (1 - d)(1 + t) of the base for the total. */
  lemma CalculoExacto(it: ItemRequest)
    ensures var l, base := Calcular(it), it.precio * it.cantidad;
            && l.base == base * E14
            && l.descuento == base * it.descuentoPct * 10_000_000_000
            && l.impuesto == base * (10_000 - it.descuentoPct) * it.impuestoPct * 1_000_000
            && l.total == base * (10_000 - it.descuentoPct) * (10_000 + it.impuestoPct) * 1_000_000
  {
    var base, d, t := it.precio * it.cantidad, it.descuentoPct, it.impuestoPct;
    var x := base * d;
    RoundDivExact(x * 10_000_000_000, 1_000_000);
    assert x * E16 == x * 10_000_000_000 * 1_000_000;
    var neto := base * (10_000 - d);
    assert base * E14 - x * 10_000_000_000 == neto * 10_000_000_000 by {
      assert neto == base * 10_000 - x;
    }
    var y := neto * t;
    assert neto * 10_000_000_000 * t == y * 1_000_000 * 10_000;
    RoundDivExact(y * 1_000_000, 10_000);
    assert neto * (10_000 + t) == neto * 10_000 + y;
  }

  function Suma(xs: seq<int>): int {
    if xs == [] then 0 else Suma(xs[..|xs| - 1]) + xs[|xs| - 1]
  }

  lemma SumaVacia()
    ensures Suma([]) == 0
  {
  }

  lemma SumaSnoc(xs: seq<int>, x: int)
    ensures Suma(xs + [x]) == Suma(xs) + x
  {
    assert (xs + [x])[..|xs|] == xs;
  }

  function Bases(items: seq<ItemRequest>): seq<int> {
    seq(|items|, i requires 0 <= i < |items| => Calcular(items[i]).base)
  }

  function Descuentos(items: seq<ItemRequest>): seq<int> {
    seq(|items|, i requires 0 <= i < |items| => Calcular(items[i]).descuento)
  }

  function Impuestos(items: seq<ItemRequest>): seq<int> {
    seq(|items|, i requires 0 <= i < |items| => Calcular(items[i]).impuesto)
  }

  function Totales(items: seq<ItemRequest>): seq<int> {
    seq(|items|, i requires 0 <= i < |items| => Calcular(items[i]).total)
  }

  /** The lists hold each line's exact figures: price times quantity, and its products with the percentages. */
  lemma ListasExactas(items: seq<ItemRequest>, i: nat)
    requires i < |items|
    ensures |Bases(items)| == |Descuentos(items)| == |Impuestos(items)| == |Totales(items)| == |items|
    ensures var base, d, t := items[i].precio * items[i].cantidad, items[i].descuentoPct, items[i].impuestoPct;
            && Bases(items)[i] == base * 100_000_000_000_000
            && Descuentos(items)[i] == base * d * 10_000_000_000
            && Impuestos(items)[i] == base * (10_000 - d) * t * 1_000_000
            && Totales(items)[i] == base * (10_000 - d) * (10_000 + t) * 1_000_000
  {
    hide Calcular;
    CalculoExacto(items[i]);
  }

  lemma {:induction false} SumasCuadran(items: seq<ItemRequest>)
    ensures Suma(Totales(items)) == Suma(Bases(items)) - Suma(Descuentos(items)) + Suma(Impuestos(items))
  {
    if items != [] {
      var antes := items[..|items| - 1];
      SumasCuadran(antes);
      assert Totales(items)[..|antes|] == Totales(antes);
      assert Bases(items)[..|antes|] == Bases(antes);
      assert Descuentos(items)[..|antes|] == Descuentos(antes);
      assert Impuestos(items)[..|antes|] == Impuestos(antes);
    }
  }

  /** What one more line adds to each list and to the sums. */
  lemma UnItemMas(antes: seq<ItemRequest>, it: ItemRequest)
    ensures var l := Calcular(it);
            && Totales(antes + [it]) == Totales(antes) + [l.total]
            && Suma(Bases(antes + [it])) == Suma(Bases(antes)) + l.base
            && Suma(Descuentos(antes + [it])) == Suma(Descuentos(antes)) + l.descuento
  {
    hide Calcular;
    var l := Calcular(it);
    SumaSnoc(Bases(antes), l.base);
    SumaSnoc(Descuentos(antes), l.descuento);
    assert Bases(antes + [it]) == Bases(antes) + [l.base];
    assert Descuentos(antes + [it]) == Descuentos(antes) + [l.descuento];
  }

  method SumarPagos(pagos: seq<int>) returns (total: int)
    ensures total == Suma(pagos)
  {
    total := 0;
    for i := 0 to |pagos|
      invariant total == Suma(pagos[..i])
    {
      SumaSnoc(pagos[..i], pagos[i]);
      assert pagos[..i + 1] == pagos[..i] + [pagos[i]];
      total := total + pagos[i];
    }
    assert pagos[..|pagos|] == pagos;
  }

  predicate HayCantidadInvalida(items: seq<ItemRequest>) {
    exists i :: 0 <= i < |items| && items[i].cantidad < 1
  }

  /** Why a request is refused, in the order the code looks: what does not parse, a quantity, the database. */
  function Rechazo(req: Solicitud, dbOk: bool): Option<Error> {
    if req.proveedor.None? then Some(ProveedorInvalido)
    else if req.fechaCompra.None? then Some(FechaCompraInvalida)
    else if req.fechaVencimiento.None? then Some(FechaVencimientoInvalida)
    else if HayCantidadInvalida(req.items) then Some(CantidadInvalida)
    else if !dbOk then Some(FallaBase)
    else None
  }

  /** There are payments and they reach the total, which is not rounded. */
  predicate Cubren(pagos: seq<int>, total: int) {
    pagos != [] && Suma(pagos) * E14 >= total
  }

  /** What the order says of itself: figures that add up with nothing lost to rounding, and paid if its payments reach the total. */
  ghost predicate Cuadra(c: Compra, items: seq<ItemRequest>) {
    && c.lineas == Totales(items)
    && c.subtotal == Suma(Bases(items)) && c.descuento == Suma(Descuentos(items))
    && c.total == Suma(c.lineas) == c.subtotal - c.descuento + Suma(Impuestos(items))
    && (c.estado == Pagada <==> Cubren(c.pagos, c.total))
  }

  /** What the loop over items accumulates. */
  datatype Cuentas = Cuentas(subtotal: int, descuento: int, total: int, lineas: seq<int>)

  /** The loop over items. */
  method SumarItems(items: seq<ItemRequest>) returns (r: Result<Cuentas, Error>)
    ensures r == Err(CantidadInvalida) <==> HayCantidadInvalida(items)
    ensures r.Err? ==> r.error == CantidadInvalida
    ensures r.Ok? ==>
              && r.value.lineas == Totales(items) && r.value.total == Suma(r.value.lineas)
              && r.value.subtotal == Suma(Bases(items)) && r.value.descuento == Suma(Descuentos(items))
  {
    hide Calcular, Suma;
    var subtotal, descuentoTotal, total := 0, 0, 0;
    var lineas: seq<int> := [];
    SumaVacia();
    assert Bases(items[..0]) == [] && Descuentos(items[..0]) == [];
    for i := 0 to |items|
      invariant forall k :: 0 <= k < i ==> items[k].cantidad >= 1
      invariant lineas == Totales(items[..i])
      invariant subtotal == Suma(Bases(items[..i]))
      invariant descuentoTotal == Suma(Descuentos(items[..i]))
      invariant total == Suma(lineas)
    {
      if items[i].cantidad < 1 {
        return Err(CantidadInvalida);
      }
      var l := Calcular(items[i]);
      UnItemMas(items[..i], items[i]);
      SumaSnoc(lineas, l.total);
      assert items[..i + 1] == items[..i] + [items[i]];
      subtotal := subtotal + l.base;
      descuentoTotal := descuentoTotal + l.descuento;
      total := total + l.total;
      lineas := lineas + [l.total];
    }
    assert items[..|items|] == items;
    r := Ok(Cuentas(subtotal, descuentoTotal, total, lineas));
  }

  /** The whole operation up to the insert; the reload after it can only change how the order is shown. */
  method Crear(req: Solicitud, dbOk: bool) returns (r: Result<Compra, Error>)
    ensures r.Err? <==> Rechazo(req, dbOk).Some?
    ensures r.Err? ==> r.error == Rechazo(req, dbOk).value
    ensures r.Ok? ==> Cuadra(r.value, req.items) && r.value.pagos == req.pagos
    ensures r.Ok? <==>
              && req.proveedor.Some? && req.fechaCompra.Some? && req.fechaVencimiento.Some? && dbOk
              && forall i :: 0 <= i < |req.items| ==> req.items[i].cantidad >= 1
    ensures r.Err? ==> r.error == if req.proveedor.None? then ProveedorInvalido
                                  else if req.fechaCompra.None? then FechaCompraInvalida
                                  else if req.fechaVencimiento.None? then FechaVencimientoInvalida
                                  else if exists i :: 0 <= i < |req.items| && req.items[i].cantidad < 1 then CantidadInvalida
                                  else FallaBase
    ensures r.Ok? ==>
              && r.value.total == Suma(r.value.lineas) == Suma(Totales(req.items))
              && r.value.subtotal == Suma(Bases(req.items)) && r.value.descuento == Suma(Descuentos(req.items))
              && (r.value.estado == Pagada <==> |req.pagos| > 0 && Suma(req.pagos) * 100_000_000_000_000 >= r.value.total)
    ensures r.Ok? ==>
              && Some(r.value.proveedor) == req.proveedor
              && Some(r.value.fechaCompra) == req.fechaCompra && Some(r.value.fechaVencimiento) == req.fechaVencimiento
              && r.value.moneda == (if req.moneda == "" then "ARS" else req.moneda)
              && r.value.deposito == (if req.deposito == "" then "Principal" else req.deposito)
  {
    hide Suma, Bases, Descuentos, Impuestos, Totales;
    if req.proveedor.None? {
      return Err(ProveedorInvalido);
    }
    if req.fechaCompra.None? {
      return Err(FechaCompraInvalida);
    }
    if req.fechaVencimiento.None? {
      return Err(FechaVencimientoInvalida);
    }
    var moneda, deposito := req.moneda, req.deposito;
    if moneda == "" {
      moneda := "ARS";
    }
    if deposito == "" {
      deposito := "Principal";
    }
    var cuentas :- SumarItems(req.items);
    var pagosTotal := SumarPagos(req.pagos);
    var estado := if |req.pagos| > 0 && pagosTotal * E14 >= cuentas.total then Pagada else Pendiente;
    SumasCuadran(req.items);
    if !dbOk {
      return Err(FallaBase);
    }
    r := Ok(Compra(req.proveedor.value, req.fechaCompra.value, req.fechaVencimiento.value, moneda, deposito,
                   cuentas.subtotal, cuentas.descuento, cuentas.total, estado, cuentas.lineas, req.pagos));
  }

  // ---------------------------------------------------------------------------------------------
  // What the columns keep
  // ---------------------------------------------------------------------------------------------

  /** Storing an amount in a DECIMAL(12,2) column rounds it to cents, half away from zero. */
  function Columna(x: int): int {
    RoundDiv(x, E14)
  }

  function Columnas(xs: seq<int>): seq<int> {
    seq(|xs|, i requires 0 <= i < |xs| => Columna(xs[i]))
  }

  lemma ColumnaCerca(x: int)
    ensures 2 * Abs(Columna(x) * E14 - x) <= E14
  {
    if x < 0 {
      RoundDivBounds(-x, E14);
      RoundDivNegated(-x, E14);
    } else {
      RoundDivBounds(x, E14);
    }
  }

  lemma {:induction false} ColumnasCerca(xs: seq<int>)
    ensures 2 * Abs(Suma(Columnas(xs)) * E14 - Suma(xs)) <= |xs| * E14
  {
    if xs != [] {
      var antes, x := xs[..|xs| - 1], xs[|xs| - 1];
      ColumnasCerca(antes);
      ColumnaCerca(x);
      assert Columnas(xs)[..|antes|] == Columnas(antes);
    }
  }

  /** The stored total and the sum of the stored lines differ by at most half a cent for each line and one more. */
  lemma ColumnasCuadran(lineas: seq<int>)
    ensures 2 * Abs(Columna(Suma(lineas)) - Suma(Columnas(lineas))) <= |lineas| + 1
  {
    hide Columna, Columnas, Suma;
    ColumnasCerca(lineas);
    ColumnaCerca(Suma(lineas));
  }

  /** Storing an amount rounds it down when there is something beyond the cents but less than half a cent, or
      exactly half a cent of a negative amount. */
  predicate PierdeAlGuardarse(total: int) {
    var resto := total % E14;
    0 < 2 * resto < E14 || (total < 0 && 2 * resto == E14)
  }

  lemma ColumnaPorDebajo(total: int)
    ensures Columna(total) * E14 < total <==> PierdeAlGuardarse(total)
  {
    hide RoundDiv;
    if total < 0 {
      RoundDivSide(-total, E14);
      NegatedRemainder(-total, E14);
      RoundDivNegated(-total, E14);
    } else {
      RoundDivSide(total, E14);
    }
  }

  /**
   The order's state against what its stored total would say: they differ for exactly one sum of payments, the
   stored total itself, and then only if storing the total rounded it down.
   */
  lemma PagadaSegunColumna(total: int, pagos: seq<int>)
    ensures Cubren(pagos, total) ==> pagos != [] && Suma(pagos) >= Columna(total)
    ensures pagos != [] && Suma(pagos) >= Columna(total) && !Cubren(pagos, total)
       <==> pagos != [] && Suma(pagos) == Columna(total) && PierdeAlGuardarse(total)
  {
    hide Suma;
    ColumnaCerca(total);
    ColumnaPorDebajo(total);
  }

  /** 10.60 less 1 % is 10.494: stored as 10.49, and 10.49 paid does not cover it. */
  lemma PagoDelTotalGuardado()
    ensures var total := Calcular(ItemRequest(1060, 100, 0, 1)).total;
            Columna(total) == 1049 && !Cubren([1049], total)
  {
    SumaSnoc([], 1049);
    assert [] + [1049] == [1049];
    CalculoExacto(ItemRequest(1060, 100, 0, 1));
    var total := Calcular(ItemRequest(1060, 100, 0, 1)).total;
    assert total == 104_940_000_000_000_000;
    ColumnaCerca(total);
  }
}
