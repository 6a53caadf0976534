/** The products table behind the admin product endpoints of server.js:
    create with the next display order, update keeping the stored order,
    delete, and the up/down reorder that swaps two rows' display orders. */
module ProductStore {
  import opened Basics
  import opened Catalog

  /** The products table: its rows in storage order and the next value of the
      `BIGSERIAL` id sequence. */
  datatype Table = Table(rows: seq<Product>, nextId: nat)

  predicate UniqueIds(rows: seq<Product>)
  {
    forall i, j :: 0 <= i < j < |rows| ==> rows[i].id != rows[j].id
  }

  /** Ids are unique and all below the next id the sequence hands out. */
  predicate Valid(t: Table)
  {
    UniqueIds(t.rows) && forall i :: 0 <= i < |t.rows| ==> t.rows[i].id < t.nextId
  }

  /** `SELECT ... WHERE id = $1`. */
  function FindById(rows: seq<Product>, id: nat): (r: Option<Product>)
    ensures r.None? <==> forall i :: 0 <= i < |rows| ==> rows[i].id != id
    ensures r.Some? ==> r.value in rows && r.value.id == id
  {
    if |rows| == 0 then None
    else if rows[0].id == id then Some(rows[0])
    else FindById(rows[1..], id)
  }

  // ---------------------------------------------------------------------
  // Create

  /** `COALESCE(MAX(display_order), 0)`. */
  function MaxOrder(rows: seq<Product>): (m: int)
    ensures forall i :: 0 <= i < |rows| ==> rows[i].displayOrder <= m
    ensures |rows| == 0 ==> m == 0
    ensures |rows| > 0 ==> exists i :: 0 <= i < |rows| && rows[i].displayOrder == m
  {
    if |rows| == 0 then 0
    else if |rows| == 1 then rows[0].displayOrder
    else
      var rest := MaxOrder(rows[1..]);
      assert forall i :: 1 <= i < |rows| ==> rows[i] == rows[1..][i - 1];
      if rows[0].displayOrder >= rest then rows[0].displayOrder else rest
  }

  /** The display order a new product receives when the request names none. */
  function NewDisplayOrder(rows: seq<Product>): (d: int)
    ensures forall i :: 0 <= i < |rows| ==> rows[i].displayOrder < d
    ensures |rows| == 0 ==> d == 1
  {
    MaxOrder(rows) + 1
  }

  /** `x || fallback` for an optional integer field. */
  function OrElse(x: Option<int>, fallback: int): int
  {
    if x.Some? && x.value != 0 then x.value else fallback
  }

  /** `POST /api/admin/products`: the row gets the next id, the requested
      display order or else one past the largest, and `specsColumns || 1`. */
  function Create(t: Table, input: ProductInput): (r: (Table, Product))
    ensures r.0.rows == t.rows + [r.1]
    ensures r.1.id == t.nextId && r.0.nextId == t.nextId + 1
    ensures Valid(t) ==> Valid(r.0)
    ensures OrElse(input.displayOrder, 0) == 0
            ==> forall i :: 0 <= i < |t.rows| ==> t.rows[i].displayOrder < r.1.displayOrder
    ensures OrElse(input.displayOrder, 0) == 0 ==> r.1.displayOrder == MaxOrder(t.rows) + 1
    ensures OrElse(input.displayOrder, 0) != 0 ==> r.1.displayOrder == input.displayOrder.value
    ensures r.1.specsColumns != 0
    ensures r.1.name == input.name && r.1.category == input.category && r.1.price == input.price
            && r.1.options == input.options && r.1.specs == input.specs
  {
    var p := Product(t.nextId, input.name, input.category, input.price, input.stock, input.description,
                     input.standardEquipment, input.specs, input.images, input.options,
                     OrElse(input.displayOrder, NewDisplayOrder(t.rows)), OrElse(input.specsColumns, 1));
    (Table(t.rows + [p], t.nextId + 1), p)
  }

  // ---------------------------------------------------------------------
  // Update and delete

  datatype UpdateOutcome = Updated(table: Table, product: Product) | UpdateNotFound

  /** Replace every row with the given id by `f(row)`. */
  function ReplaceById(rows: seq<Product>, id: nat, p: Product): (r: seq<Product>)
    ensures |r| == |rows|
    ensures forall i :: 0 <= i < |rows| ==> r[i] == (if rows[i].id == id then p else rows[i])
  {
    seq(|rows|, i requires 0 <= i < |rows| => if rows[i].id == id then p else rows[i])
  }

  /** `PUT /api/admin/products/:id`. An absent `displayOrder` keeps the stored
      one (a missing row is a 404 at that point already); a present one,
      even 0, is written as given. `specsColumns || 1` as on create. */
  function Update(t: Table, id: nat, input: ProductInput): (r: UpdateOutcome)
    ensures r.UpdateNotFound? <==> FindById(t.rows, id).None?
    ensures r.Updated? ==> r.table.nextId == t.nextId && |r.table.rows| == |t.rows|
    ensures r.Updated? ==> forall i :: 0 <= i < |t.rows| ==>
              r.table.rows[i] == (if t.rows[i].id == id then r.product else t.rows[i])
    ensures r.Updated? ==> r.product.id == id
    ensures r.Updated? && input.displayOrder.None? ==> r.product.displayOrder == FindById(t.rows, id).value.displayOrder
    ensures r.Updated? && input.displayOrder.Some? ==> r.product.displayOrder == input.displayOrder.value
    ensures Valid(t) && r.Updated? ==> Valid(r.table)
  {
    match FindById(t.rows, id)
    case None => UpdateNotFound
    case Some(current) =>
      var order := if input.displayOrder.Some? then input.displayOrder.value else current.displayOrder;
      var p := Product(id, input.name, input.category, input.price, input.stock, input.description,
                       input.standardEquipment, input.specs, input.images, input.options,
                       order, OrElse(input.specsColumns, 1));
      var rows := ReplaceById(t.rows, id, p);
      assert forall i :: 0 <= i < |rows| ==> rows[i].id == t.rows[i].id;
      Updated(Table(rows, t.nextId), p)
  }

  datatype DeleteOutcome = Deleted(table: Table) | DeleteNotFound

  /** The rows other than those with id `id`, in storage order. */
  function RemoveById(rows: seq<Product>, id: nat): (r: seq<Product>)
    ensures forall x :: x in r <==> x in rows && x.id != id
    ensures |r| <= |rows|
  {
    if |rows| == 0 then []
    else if rows[0].id == id then RemoveById(rows[1..], id)
    else [rows[0]] + RemoveById(rows[1..], id)
  }

  /** Removing rows keeps the remaining ids unique. */
  lemma {:induction false} RemoveByIdUnique(rows: seq<Product>, id: nat)
    ensures UniqueIds(rows) ==> UniqueIds(RemoveById(rows, id))
    decreases |rows|
  {
    if |rows| > 0 && UniqueIds(rows) {
      RemoveByIdUnique(rows[1..], id);
      var rest := RemoveById(rows[1..], id);
      if rows[0].id != id {
        forall i | 0 <= i < |rest| ensures rest[i].id != rows[0].id {
          assert rest[i] in rows[1..];
          var k :| 0 <= k < |rows[1..]| && rows[1..][k] == rest[i];
          assert rows[k + 1] == rest[i];
        }
        assert RemoveById(rows, id) == [rows[0]] + rest;
      }
    }
  }

  /** `DELETE /api/admin/products/:id`. */
  function Delete(t: Table, id: nat): (r: DeleteOutcome)
    ensures r.DeleteNotFound? <==> FindById(t.rows, id).None?
    ensures r.Deleted? ==> FindById(r.table.rows, id).None?
    ensures r.Deleted? ==> forall i :: 0 <= i < |t.rows| && t.rows[i].id != id ==> t.rows[i] in r.table.rows
    ensures Valid(t) && r.Deleted? ==> Valid(r.table)
  {
    if FindById(t.rows, id).None? then DeleteNotFound
    else
      RemoveByIdUnique(t.rows, id);
      Deleted(Table(RemoveById(t.rows, id), t.nextId))
  }

  // ---------------------------------------------------------------------
  // Reorder

  /** The `direction` field of the reorder request. */
  datatype Direction = Up | Down | OtherDirection(raw: string)

  function ParseDirection(raw: string): Direction
  {
    if raw == "up" then Up else if raw == "down" then Down else OtherDirection(raw)
  }

  datatype MoveOutcome =
    | Moved(rows: seq<Product>)
    | AlreadyAtTop
    | AlreadyAtBottom
    | MoveNotFound
    | InvalidDirection

  /** `WHERE display_order < cur ORDER BY display_order DESC LIMIT 1`: the row
      with the largest order below `cur`; among equals, the first in table order. */
  function NextBelow(rows: seq<Product>, cur: int): (r: Option<Product>)
    ensures r.None? <==> forall i :: 0 <= i < |rows| ==> rows[i].displayOrder >= cur
    ensures r.Some? ==> r.value in rows && r.value.displayOrder < cur
    ensures r.Some? ==> forall i :: 0 <= i < |rows| && rows[i].displayOrder < cur ==> rows[i].displayOrder <= r.value.displayOrder
  {
    if |rows| == 0 then None
    else
      var rest := NextBelow(rows[1..], cur);
      assert forall i :: 1 <= i < |rows| ==> rows[i] == rows[1..][i - 1];
      if rows[0].displayOrder < cur && (rest.None? || rest.value.displayOrder <= rows[0].displayOrder)
      then Some(rows[0]) else rest
  }

  /** `WHERE display_order > cur ORDER BY display_order ASC LIMIT 1`. */
  function NextAbove(rows: seq<Product>, cur: int): (r: Option<Product>)
    ensures r.None? <==> forall i :: 0 <= i < |rows| ==> rows[i].displayOrder <= cur
    ensures r.Some? ==> r.value in rows && r.value.displayOrder > cur
    ensures r.Some? ==> forall i :: 0 <= i < |rows| && rows[i].displayOrder > cur ==> rows[i].displayOrder >= r.value.displayOrder
  {
    if |rows| == 0 then None
    else
      var rest := NextAbove(rows[1..], cur);
      assert forall i :: 1 <= i < |rows| ==> rows[i] == rows[1..][i - 1];
      if rows[0].displayOrder > cur && (rest.None? || rest.value.displayOrder >= rows[0].displayOrder)
      then Some(rows[0]) else rest
  }

  /** `UPDATE products SET display_order = $1 WHERE id = $2`. */
  function SetOrder(rows: seq<Product>, id: nat, order: int): (r: seq<Product>)
    ensures |r| == |rows|
    ensures forall i :: 0 <= i < |rows| ==>
              r[i] == (if rows[i].id == id then rows[i].(displayOrder := order) else rows[i])
  {
    seq(|rows|, i requires 0 <= i < |rows| => if rows[i].id == id then rows[i].(displayOrder := order) else rows[i])
  }

  /** The two updates of a move: the product takes the neighbour's order and
      the neighbour takes the product's. */
  function Swap(rows: seq<Product>, current: Product, neighbour: Product): seq<Product>
  {
    SetOrder(SetOrder(rows, current.id, neighbour.displayOrder), neighbour.id, current.displayOrder)
  }

  /** `PATCH /api/admin/products/:id/order`. The 404 check comes before the
      direction check. */
  function Move(rows: seq<Product>, id: nat, dir: Direction): (r: MoveOutcome)
    ensures r.MoveNotFound? <==> FindById(rows, id).None?
    ensures r.InvalidDirection? <==> FindById(rows, id).Some? && dir.OtherDirection?
    ensures r.AlreadyAtTop? <==> FindById(rows, id).Some? && dir == Up
                                 && forall i :: 0 <= i < |rows| ==> rows[i].displayOrder >= FindById(rows, id).value.displayOrder
    ensures r.AlreadyAtBottom? <==> FindById(rows, id).Some? && dir == Down
                                    && forall i :: 0 <= i < |rows| ==> rows[i].displayOrder <= FindById(rows, id).value.displayOrder
  {
    match FindById(rows, id)
    case None => MoveNotFound
    case Some(current) =>
      if dir.OtherDirection? then InvalidDirection
      else
        match Neighbour(rows, current.displayOrder, dir)
        case None => if dir == Up then AlreadyAtTop else AlreadyAtBottom
        case Some(n) => Moved(Swap(rows, current, n))
  }

  /** The row a move in direction `dir` swaps with. */
  function Neighbour(rows: seq<Product>, cur: int, dir: Direction): Option<Product>
  {
    if dir == Up then NextBelow(rows, cur) else NextAbove(rows, cur)
  }

  /** With unique ids, the row at a known position is the one found by its id. */
  lemma FindByIdAt(rows: seq<Product>, k: int)
    requires UniqueIds(rows) && 0 <= k < |rows|
    ensures FindById(rows, rows[k].id) == Some(rows[k])
  {
    var r := FindById(rows, rows[k].id).value;
    var j :| 0 <= j < |rows| && rows[j] == r;
  }

  /** A move that happens is the swap with the neighbour in that direction. */
  lemma MovedIsSwap(rows: seq<Product>, id: nat, dir: Direction) returns (ic: int, ineigh: int)
    requires UniqueIds(rows) && Move(rows, id, dir).Moved?
    ensures 0 <= ic < |rows| && 0 <= ineigh < |rows| && ic != ineigh
    ensures rows[ic] == FindById(rows, id).value
    ensures Neighbour(rows, rows[ic].displayOrder, dir) == Some(rows[ineigh])
    ensures Move(rows, id, dir).rows == Swap(rows, rows[ic], rows[ineigh])
    ensures dir == Up ==> rows[ineigh].displayOrder < rows[ic].displayOrder
    ensures dir == Down ==> rows[ineigh].displayOrder > rows[ic].displayOrder
  {
    var cur := FindById(rows, id).value;
    ic :| 0 <= ic < |rows| && rows[ic] == cur;
    var n := Neighbour(rows, cur.displayOrder, dir).value;
    ineigh :| 0 <= ineigh < |rows| && rows[ineigh] == n;
  }

  /** The multiset of display orders of a list of rows. */
  function Orders(rows: seq<Product>): multiset<int>
  {
    if |rows| == 0 then multiset{} else multiset{rows[0].displayOrder} + Orders(rows[1..])
  }

  /** Swapping the orders of two distinct rows, each the only one with its
      id, changes those two rows only and keeps the multiset of orders. */
  lemma {:induction false} SwapEffect(rows: seq<Product>, a: Product, b: Product)
    requires UniqueIds(rows) && a in rows && b in rows && a.id != b.id
    ensures var r := Swap(rows, a, b);
            |r| == |rows|
            && (forall i :: 0 <= i < |rows| ==>
                  r[i] == if rows[i] == a then a.(displayOrder := b.displayOrder)
                          else if rows[i] == b then b.(displayOrder := a.displayOrder)
                          else rows[i])
            && Orders(r) == Orders(rows)
    decreases |rows|
  {
    var r := Swap(rows, a, b);
    forall i | 0 <= i < |rows|
      ensures r[i] == if rows[i] == a then a.(displayOrder := b.displayOrder)
                      else if rows[i] == b then b.(displayOrder := a.displayOrder)
                      else rows[i]
    {
      if rows[i].id == a.id {
        var k :| 0 <= k < |rows| && rows[k] == a;
        assert k == i;
      } else if rows[i].id == b.id {
        var k :| 0 <= k < |rows| && rows[k] == b;
        assert k == i;
      }
    }
    SwapOrders(rows, r, a, b);
  }

  /** Orders of a row-wise update where `a` and `b` trade orders. */
  lemma {:induction false} SwapOrders(rows: seq<Product>, r: seq<Product>, a: Product, b: Product)
    requires UniqueIds(rows) && a in rows && b in rows && a.id != b.id && |r| == |rows|
    requires forall i :: 0 <= i < |rows| ==>
               r[i] == if rows[i] == a then a.(displayOrder := b.displayOrder)
                       else if rows[i] == b then b.(displayOrder := a.displayOrder)
                       else rows[i]
    ensures Orders(r) == Orders(rows)
  {
    var ia :| 0 <= ia < |rows| && rows[ia] == a;
    var ib :| 0 <= ib < |rows| && rows[ib] == b;
    OrdersExcept(rows, r, ia, ib);
  }

  /** Rows agreeing outside two positions `ia != ib` whose orders are traded. */
  lemma {:induction false} OrdersExcept(rows: seq<Product>, r: seq<Product>, ia: int, ib: int)
    requires |r| == |rows| && 0 <= ia < |rows| && 0 <= ib < |rows| && ia != ib
    requires r[ia].displayOrder == rows[ib].displayOrder && r[ib].displayOrder == rows[ia].displayOrder
    requires forall i :: 0 <= i < |rows| && i != ia && i != ib ==> r[i].displayOrder == rows[i].displayOrder
    ensures Orders(r) == Orders(rows)
  {
    OrdersAsSeq(rows);
    OrdersAsSeq(r);
    var s := OrderSeq(rows);
    var t := OrderSeq(r);
    assert t == s[ia := s[ib]][ib := s[ia]];
    SwapMultiset(s, ia, ib);
  }

  function OrderSeq(rows: seq<Product>): (s: seq<int>)
    ensures |s| == |rows| && forall i :: 0 <= i < |rows| ==> s[i] == rows[i].displayOrder
  {
    seq(|rows|, i requires 0 <= i < |rows| => rows[i].displayOrder)
  }

  lemma {:induction false} OrdersAsSeq(rows: seq<Product>)
    ensures Orders(rows) == multiset(OrderSeq(rows))
    decreases |rows|
  {
    if |rows| > 0 {
      OrdersAsSeq(rows[1..]);
      assert OrderSeq(rows) == [rows[0].displayOrder] + OrderSeq(rows[1..]);
    }
  }

  lemma SwapMultiset(s: seq<int>, i: int, j: int)
    requires 0 <= i < |s| && 0 <= j < |s|
    ensures multiset(s[i := s[j]][j := s[i]]) == multiset(s)
  {
    var t := s[i := s[j]];
    assert multiset(t) == multiset(s) - multiset{s[i]} + multiset{s[j]};
    assert multiset(t[j := s[i]]) == multiset(t) - multiset{t[j]} + multiset{s[i]};
  }

  /** A move that happens swaps the product with exactly one other row: the
      product takes the neighbour's order, the neighbour the product's, every
      other row is unchanged, and the multiset of orders is preserved. An up
      move lowers the product's order, a down move raises it. */
  lemma MovePreservesOrders(rows: seq<Product>, id: nat, dir: Direction) returns (ineigh: int)
    requires UniqueIds(rows)
    requires Move(rows, id, dir).Moved?
    ensures var r := Move(rows, id, dir).rows;
            var cur := FindById(rows, id).value;
            && Orders(r) == Orders(rows)
            && |r| == |rows|
            && 0 <= ineigh < |rows| && rows[ineigh].id != id
            && (forall i :: 0 <= i < |rows| && rows[i].id != id && i != ineigh ==> r[i] == rows[i])
            && r[ineigh] == rows[ineigh].(displayOrder := cur.displayOrder)
            && FindById(r, id) == Some(cur.(displayOrder := rows[ineigh].displayOrder))
            && (dir == Up ==> rows[ineigh].displayOrder < cur.displayOrder)
            && (dir == Down ==> rows[ineigh].displayOrder > cur.displayOrder)
  {
    var ic;
    ic, ineigh := MovedIsSwap(rows, id, dir);
    var r := Swap(rows, rows[ic], rows[ineigh]);
    SwapEffect(rows, rows[ic], rows[ineigh]);
    SwapKeepsIds(rows, rows[ic], rows[ineigh]);
    FindByIdAt(r, ic);
  }

  /** With every display order equal (as after a migration, where each row
      takes the column default 0), no move can happen. */
  lemma TiesNeverMove(rows: seq<Product>, id: nat, dir: Direction)
    requires forall i, j :: 0 <= i < |rows| && 0 <= j < |rows| ==> rows[i].displayOrder == rows[j].displayOrder
    ensures !Move(rows, id, dir).Moved?
  {
    if FindById(rows, id).Some? {
      var cur := FindById(rows, id).value;
      var k :| 0 <= k < |rows| && rows[k] == cur;
    }
  }

  predicate UniqueOrders(rows: seq<Product>)
  {
    forall i, j :: 0 <= i < j < |rows| ==> rows[i].displayOrder != rows[j].displayOrder
  }

  lemma SwapKeepsIds(rows: seq<Product>, a: Product, b: Product)
    requires UniqueIds(rows)
    ensures UniqueIds(Swap(rows, a, b))
  {
    var r := Swap(rows, a, b);
    forall i, j | 0 <= i < j < |r| ensures r[i].id != r[j].id {
      assert r[i].id == rows[i].id && r[j].id == rows[j].id;
    }
  }

  /** The move once the product and its neighbour are known. */
  lemma MoveWith(rows: seq<Product>, id: nat, dir: Direction, cur: Product, n: Product)
    requires !dir.OtherDirection?
    requires FindById(rows, id) == Some(cur)
    requires Neighbour(rows, cur.displayOrder, dir) == Some(n)
    ensures Move(rows, id, dir) == Moved(Swap(rows, cur, n))
  {
  }

  /** Trading two rows' orders twice restores the table. */
  lemma SwapTwice(rows: seq<Product>, a: Product, b: Product)
    requires UniqueIds(rows) && a in rows && b in rows && a.id != b.id
    ensures Swap(Swap(rows, a, b), a.(displayOrder := b.displayOrder), b.(displayOrder := a.displayOrder)) == rows
  {
    var r := Swap(rows, a, b);
    SwapEffect(rows, a, b);
    var back := Swap(r, a.(displayOrder := b.displayOrder), b.(displayOrder := a.displayOrder));
    forall i | 0 <= i < |rows| ensures back[i] == rows[i] {
      assert r[i].id == rows[i].id;
      if rows[i].id == a.id {
        var k :| 0 <= k < |rows| && rows[k] == a;
        assert k == i;
      } else if rows[i].id == b.id {
        var k :| 0 <= k < |rows| && rows[k] == b;
        assert k == i;
      }
    }
  }

  /** With distinct display orders, moving a product down right after moving
      it up restores the table. */
  lemma UpThenDown(rows: seq<Product>, id: nat)
    requires UniqueIds(rows) && UniqueOrders(rows)
    requires Move(rows, id, Up).Moved?
    ensures Move(Move(rows, id, Up).rows, id, Down) == Moved(rows)
  {
    var ic, ineigh := MovedIsSwap(rows, id, Up);
    var cur := rows[ic];
    var n := rows[ineigh];
    var r := Swap(rows, cur, n);
    SwapEffect(rows, cur, n);
    var cur' := cur.(displayOrder := n.displayOrder);
    var n' := n.(displayOrder := cur.displayOrder);
    SwapKeepsIds(rows, cur, n);
    FindByIdAt(r, ic);
    AboveAfterUp(rows, r, ic, ineigh);
    MoveWith(r, id, Down, cur', n');
    SwapTwice(rows, cur, n);
  }

  /** After an up move the next row above the product is its old neighbour. */
  lemma AboveAfterUp(rows: seq<Product>, r: seq<Product>, ic: int, ineigh: int)
    requires UniqueIds(rows) && UniqueOrders(rows) && |r| == |rows|
    requires 0 <= ic < |rows| && 0 <= ineigh < |rows| && ic != ineigh
    requires NextBelow(rows, rows[ic].displayOrder) == Some(rows[ineigh])
    requires r[ic] == rows[ic].(displayOrder := rows[ineigh].displayOrder)
    requires r[ineigh] == rows[ineigh].(displayOrder := rows[ic].displayOrder)
    requires forall i :: 0 <= i < |rows| && i != ic && i != ineigh ==> r[i] == rows[i]
    ensures NextAbove(r, rows[ineigh].displayOrder) == Some(r[ineigh])
  {
    var lo := rows[ineigh].displayOrder;
    var hi := rows[ic].displayOrder;
    assert r[ineigh].displayOrder > lo;
    var above := NextAbove(r, lo).value;
    var ka :| 0 <= ka < |r| && r[ka] == above;
    if ka != ineigh {
      assert false;
    }
  }
}
