/** Stock levels and the movement log they must agree with
    (src/modules/inventory/inventory.service.js `createMovement`). */
module Inventory {
  import opened Options
  import opened Sums

  type ItemId = nat
  type LocationId = nat

  datatype Cell = Cell(item: ItemId, location: LocationId)

  datatype Kind = PURCHASE | RETURN | USAGE | WRITE_OFF | TRANSFER | ADJUSTMENT

  /** The request schema demands a positive quantity; nothing below needs it to be. */
  datatype Movement = Movement(item: ItemId, kind: Kind, quantity: int, from: Option<LocationId>, to: Option<LocationId>)

  type Stock = map<Cell, int>

  datatype Db = Db(items: set<ItemId>, stock: Stock, log: seq<Movement>)

  function Quantity(stock: Stock, c: Cell): int {
    if c in stock then stock[c] else 0
  }

  function Adjusted(stock: Stock, c: Cell, delta: int): Stock {
    stock[c := Quantity(stock, c) + delta]
  }

  // ---- what a movement means --------------------------------------------------------------

  predicate NamesItsLocations(m: Movement) {
    match m.kind
    case PURCHASE => m.to.Some?
    case RETURN => m.to.Some?
    case USAGE => m.from.Some?
    case WRITE_OFF => m.from.Some?
    case TRANSFER => m.from.Some? && m.to.Some?
    case ADJUSTMENT => m.to.Some? || m.from.Some?
  }

  /** Whether stock leaves `from`, and whether it reaches `to`. */
  predicate Leaves(m: Movement) {
    m.kind in {USAGE, WRITE_OFF, TRANSFER} || (m.kind == ADJUSTMENT && m.to.None?)
  }

  predicate Arrives(m: Movement) {
    m.kind in {PURCHASE, RETURN, TRANSFER} || (m.kind == ADJUSTMENT && m.to.Some?)
  }

  /** What `m` adds to the quantity at `c`. */
  function Delta(m: Movement, c: Cell): int {
    (if Arrives(m) && m.to == Some(c.location) && m.item == c.item then m.quantity else 0)
    - (if Leaves(m) && m.from == Some(c.location) && m.item == c.item then m.quantity else 0)
  }

  /** What `m` adds to the item over all locations. */
  function Net(m: Movement): int {
    (if Arrives(m) then m.quantity else 0) - (if Leaves(m) then m.quantity else 0)
  }

  function Replay(log: seq<Movement>, c: Cell): int {
    if log == [] then 0 else Replay(log[..|log| - 1], c) + Delta(log[|log| - 1], c)
  }

  function NetOf(log: seq<Movement>, item: ItemId): int {
    if log == [] then 0 else NetOf(log[..|log| - 1], item) + if log[|log| - 1].item == item then Net(log[|log| - 1]) else 0
  }

  /** Whether the movement goes through: known item, locations named, nothing driven below zero. */
  predicate Accepts(db: Db, m: Movement) {
    && m.item in db.items && NamesItsLocations(m)
    && (Leaves(m) ==> Quantity(db.stock, Cell(m.item, m.from.value)) - m.quantity >= 0)
    && (Arrives(m) && !(Leaves(m) && m.from == m.to) ==> Quantity(db.stock, Cell(m.item, m.to.value)) + m.quantity >= 0)
  }

  function Moved(stock: Stock, m: Movement): Stock
    requires NamesItsLocations(m)
  {
    var left := if Leaves(m) then Adjusted(stock, Cell(m.item, m.from.value), -m.quantity) else stock;
    if Arrives(m) then Adjusted(left, Cell(m.item, m.to.value), m.quantity) else left
  }

  function Apply(db: Db, m: Movement): Db {
    if Accepts(db, m) then db.(stock := Moved(db.stock, m), log := db.log + [m]) else db
  }

  function Run(db: Db, ms: seq<Movement>): Db
    decreases |ms|
  {
    if ms == [] then db else Run(Apply(db, ms[0]), ms[1..])
  }

  // ---- stock equals its log ------------------------------------------------------------------

  ghost predicate CellFits(db: Db, c: Cell) {
    0 <= Quantity(db.stock, c) == Replay(db.log, c)
  }

  /** The item's stock over all its locations. */
  ghost function RowsOf(stock: Stock, item: ItemId): map<Cell, int> {
    map c | c in stock && c.item == item :: stock[c]
  }

  ghost predicate TotalFits(db: Db, item: ItemId) {
    Sum(RowsOf(db.stock, item)) == NetOf(db.log, item)
  }

  ghost predicate Inv(db: Db) {
    (forall c :: CellFits(db, c)) && (forall item :: TotalFits(db, item))
  }

  lemma ReplayOneMore(log: seq<Movement>, m: Movement, c: Cell)
    ensures Replay(log + [m], c) == Replay(log, c) + Delta(m, c)
    ensures NetOf(log + [m], c.item) == NetOf(log, c.item) + if m.item == c.item then Net(m) else 0
  {
    assert (log + [m])[..|log|] == log;
  }

  lemma MovedQuantity(stock: Stock, m: Movement, c: Cell)
    requires NamesItsLocations(m)
    ensures Quantity(Moved(stock, m), c) == Quantity(stock, c) + Delta(m, c)
  {
  }

  /** What each kind of movement does, and to which quantities. */
  lemma WhatEachKindDoes(stock: Stock, m: Movement, c: Cell)
    requires NamesItsLocations(m)
    ensures var change := Quantity(Moved(stock, m), c) - Quantity(stock, c);
            var here, there := m.from == Some(c.location) && m.item == c.item, m.to == Some(c.location) && m.item == c.item;
            match m.kind
            case PURCHASE => change == if there then m.quantity else 0
            case RETURN => change == if there then m.quantity else 0
            case USAGE => change == if here then -m.quantity else 0
            case WRITE_OFF => change == if here then -m.quantity else 0
            case TRANSFER => change == if here && !there then -m.quantity else if there && !here then m.quantity else 0
            case ADJUSTMENT =>
              if m.to.Some? then change == if there then m.quantity else 0
              else change == if here then -m.quantity else 0
  {
    MovedQuantity(stock, m, c);
  }

  /** A movement of known stock between named places is refused exactly when it would take more than
      there is; adding never fails. */
  lemma RefusedIff(db: Db, m: Movement)
    requires Inv(db) && m.item in db.items && m.quantity > 0 && m.from.Some? && m.to.Some?
    ensures var takes := m.kind == USAGE || m.kind == WRITE_OFF || m.kind == TRANSFER;
            Accepts(db, m) <==> (takes ==> Quantity(db.stock, Cell(m.item, m.from.value)) >= m.quantity)
  {
    assert CellFits(db, Cell(m.item, m.to.value));
  }

  lemma AdjustedTotal(stock: Stock, c: Cell, delta: int, item: ItemId)
    ensures Sum(RowsOf(Adjusted(stock, c, delta), item)) == Sum(RowsOf(stock, item)) + if c.item == item then delta else 0
  {
    var rows, after := RowsOf(stock, item), RowsOf(Adjusted(stock, c, delta), item);
    if c.item == item {
      assert after == rows[c := Quantity(stock, c) + delta];
      Put(rows, c, Quantity(stock, c) + delta);
    } else {
      assert after == rows;
    }
  }

  lemma MovedTotal(stock: Stock, m: Movement, item: ItemId)
    requires NamesItsLocations(m)
    ensures Sum(RowsOf(Moved(stock, m), item)) == Sum(RowsOf(stock, item)) + if m.item == item then Net(m) else 0
  {
    var left := if Leaves(m) then Adjusted(stock, Cell(m.item, m.from.value), -m.quantity) else stock;
    if Leaves(m) { AdjustedTotal(stock, Cell(m.item, m.from.value), -m.quantity, item); }
    if Arrives(m) { AdjustedTotal(left, Cell(m.item, m.to.value), m.quantity, item); }
  }

  /** A transfer keeps what there is of every item. */
  lemma TransferKeepsTheTotal(db: Db, m: Movement, item: ItemId)
    requires m.kind == TRANSFER
    ensures Sum(RowsOf(Apply(db, m).stock, item)) == Sum(RowsOf(db.stock, item))
  {
    if Accepts(db, m) { MovedTotal(db.stock, m, item); }
  }

  lemma StepKeeps(db: Db, m: Movement)
    requires Inv(db)
    ensures Inv(Apply(db, m))
  {
    if Accepts(db, m) {
      var after := Apply(db, m);
      forall c ensures CellFits(after, c) {
        assert CellFits(db, c);
        MovedQuantity(db.stock, m, c);
        ReplayOneMore(db.log, m, c);
      }
      forall item ensures TotalFits(after, item) {
        assert TotalFits(db, item);
        MovedTotal(db.stock, m, item);
        ReplayOneMore(db.log, m, Cell(item, 0));
      }
    }
  }

  /** After any sequence of requests, accepted or refused, every quantity is what replaying the log
      gives and is never negative, and every item's total is the net of its movements. */
  lemma {:induction false} StockEqualsItsLog(db: Db, ms: seq<Movement>)
    requires Inv(db)
    ensures Inv(Run(db, ms))
    decreases |ms|
  {
    if ms != [] {
      StepKeeps(db, ms[0]);
      StockEqualsItsLog(Apply(db, ms[0]), ms[1..]);
    }
  }

  lemma EmptyStockFits(items: set<ItemId>)
    ensures Inv(Db(items, map[], []))
  {
    var db := Db(items, map[], []);
    forall item ensures TotalFits(db, item) {
      assert RowsOf(db.stock, item) == map[];
    }
  }

  // ---- the service --------------------------------------------------------------------------

  class InventoryService {
    const items: set<ItemId>
    var stock: Stock
    var log: seq<Movement>

    function Tables(): Db
      reads this
    {
      Db(items, stock, log)
    }

    constructor (items: set<ItemId>)
      ensures Tables() == Db(items, map[], []) && Inv(Tables())
    {
      this.items, stock, log := items, map[], [];
      new;
      EmptyStockFits(items);
    }

    /** False when the quantity would fall below zero; then nothing is written. */
    method AdjustStock(c: Cell, delta: int) returns (ok: bool)
      modifies this`stock
      ensures ok <==> Quantity(old(stock), c) + delta >= 0
      ensures stock == if ok then Adjusted(old(stock), c, delta) else old(stock)
    {
      if c in stock {
        var newQty := stock[c] + delta;
        if newQty < 0 { return false; }
        stock := stock[c := newQty];
      } else {
        if delta < 0 { return false; }
        stock := stock[c := delta];
      }
      return true;
    }

    /** The stock part of a movement, inside the transaction: it may stop half-way. */
    method MoveStock(m: Movement) returns (ok: bool)
      requires m.item in items && Inv(Tables())
      modifies this`stock
      ensures ok <==> Accepts(old(Tables()), m)
      ensures ok ==> stock == Moved(old(stock), m)
    {
      assert m.from.Some? ==> CellFits(Tables(), Cell(m.item, m.from.value));
      match m.kind {
        case PURCHASE | RETURN =>
          if m.to.None? { return false; }
          ok := AdjustStock(Cell(m.item, m.to.value), m.quantity);
        case USAGE | WRITE_OFF =>
          if m.from.None? { return false; }
          ok := AdjustStock(Cell(m.item, m.from.value), -m.quantity);
        case TRANSFER =>
          if m.from.None? || m.to.None? { return false; }
          ok := AdjustStock(Cell(m.item, m.from.value), -m.quantity);
          if ok { ok := AdjustStock(Cell(m.item, m.to.value), m.quantity); }
        case ADJUSTMENT =>
          if m.to.Some? {
            ok := AdjustStock(Cell(m.item, m.to.value), m.quantity);
          } else if m.from.Some? {
            ok := AdjustStock(Cell(m.item, m.from.value), -m.quantity);
          } else {
            return false;
          }
      }
    }

    /** A refused movement rolls back whatever was written on the way. */
    method CreateMovement(m: Movement) returns (ok: bool)
      requires Inv(Tables())
      modifies this
      ensures Tables() == Apply(old(Tables()), m) && Inv(Tables())
      ensures ok <==> Accepts(old(Tables()), m)
      ensures !ok ==> stock == old(stock) && log == old(log)
      ensures ok ==> NamesItsLocations(m) && forall c :: Quantity(stock, c) == Quantity(old(stock), c) + Delta(m, c)
      ensures ok ==> log == old(log) + [m]
    {
      if NamesItsLocations(m) {
        forall c ensures Quantity(Moved(stock, m), c) == Quantity(stock, c) + Delta(m, c) { MovedQuantity(stock, m, c); }
      }
      StepKeeps(Tables(), m);
      if m.item !in items { return false; }
      var before := stock;
      ok := MoveStock(m);
      if ok {
        log := log + [m];
      } else {
        stock := before; // rollback
      }
    }
  }
}
