/**
 * The routing-key bookkeeping of a built statement, on values: one slot per
 * partition-key column, filled by binding values to column names, and the key
 * assembled from the slots once every one of them is filled.
 */
module RoutingKey {
  import opened Wrappers
  import opened Schema
  import CompositeKey

  /** One optional encoded fragment per partition-key column, in column order. */
  type Slots = seq<Option<Bytes>>

  /** A value bound to a named column by a statement builder. */
  datatype Binding = Binding(column: string, value: string)

  /** The slots of a statement built for a table: all empty. */
  function EmptySlots(n: nat): (s: Slots)
    ensures |s| == n && forall i :: 0 <= i < n ==> s[i].None?
  {
    seq(n, _ => None)
  }

  /** The first partition-key column named `name`, if there is one. */
  function IndexOf(columns: seq<Column>, name: string): (r: Option<nat>)
    ensures r.Some? ==> r.value < |columns| && columns[r.value].name == name
    ensures r.Some? ==> forall k :: 0 <= k < r.value ==> columns[k].name != name
    ensures r.None? ==> forall k :: 0 <= k < |columns| ==> columns[k].name != name
  {
    if columns == [] then None
    else if columns[0].name == name then Some(0)
    else match IndexOf(columns[1..], name)
      case None => None
      case Some(i) => Some(i + 1)
  }

  /**
   * The effect of binding `value` to the column `name`: the first column of that
   * name parses the value into its slot; a failed parse is reported and changes
   * nothing; a name that is not a partition-key column changes nothing.
   */
  function Bind(columns: seq<Column>, slots: Slots, name: string, value: string): (r: Result<Slots, Error>)
    requires |slots| == |columns|
    ensures r.Success? ==> |r.value| == |slots|
    ensures r.Success? ==> forall j :: 0 <= j < |slots| && IndexOf(columns, name) != Some(j) ==> r.value[j] == slots[j]
    ensures r.Success? && IndexOf(columns, name).Some? ==>
      var i := IndexOf(columns, name).value;
      columns[i].parse(value).Success? && r.value[i] == Some(columns[i].parse(value).value)
    ensures r.Failure? <==>
      IndexOf(columns, name).Some? && columns[IndexOf(columns, name).value].parse(value).Failure?
    ensures r.Failure? ==> r.error == columns[IndexOf(columns, name).value].parse(value).error
  {
    match IndexOf(columns, name)
    case None => Success(slots)
    case Some(i) =>
      match columns[i].parse(value)
      case Failure(e) => Failure(e)
      case Success(bytes) => Success(slots[i := Some(bytes)])
  }

  /** A sequence of binds, applied in order; the first failure ends it. */
  function Binds(columns: seq<Column>, slots: Slots, bs: seq<Binding>): (r: Result<Slots, Error>)
    requires |slots| == |columns|
    ensures r.Success? ==> |r.value| == |slots|
  {
    if bs == [] then Success(slots)
    else match Binds(columns, slots, bs[..|bs| - 1])
      case Failure(e) => Failure(e)
      case Success(s) => Bind(columns, s, bs[|bs| - 1].column, bs[|bs| - 1].value)
  }

  /** Some bind in `bs` names a column whose first occurrence is at index `i`. */
  predicate Reached(columns: seq<Column>, bs: seq<Binding>, i: nat) {
    exists k :: 0 <= k < |bs| && IndexOf(columns, bs[k].column) == Some(i)
  }

  /** Every slot holds a fragment. */
  predicate AllBound(slots: Slots) {
    forall i :: 0 <= i < |slots| ==> slots[i].Some?
  }

  /** The fragments of filled slots, in column order. */
  function Values(slots: Slots): (vs: seq<Bytes>)
    requires AllBound(slots)
    ensures |vs| == |slots| && forall i :: 0 <= i < |slots| ==> slots[i] == Some(vs[i])
  {
    seq(|slots|, i requires 0 <= i < |slots| => slots[i].value)
  }

  /**
   * The routing key of a statement with slots `slots` (None when it has no
   * partition key): nothing until every slot is filled; then a single column's
   * fragment as it is, or the composite key of all fragments.
   */
  function RoutingKeyOf(slots: Option<Slots>): (r: Option<Bytes>)
    ensures r.Some? <==> slots.Some? && AllBound(slots.value)
  {
    match slots
    case None => None
    case Some(s) =>
      if !AllBound(s) then None
      else if |s| == 1 then s[0]
      else Some(CompositeKey.Composed(Values(s)))
  }

  /** Binding the same column twice keeps only the second value: the last write wins. */
  lemma BindLastWriteWins(columns: seq<Column>, slots: Slots, name: string, first: string, second: string)
    requires |slots| == |columns|
    requires Bind(columns, slots, name, first).Success?
    ensures Bind(columns, Bind(columns, slots, name, first).value, name, second) == Bind(columns, slots, name, second)
  {
    match IndexOf(columns, name)
    case None =>
    case Some(i) =>
      var once := Bind(columns, slots, name, first).value;
      if columns[i].parse(second).Success? {
        assert once[i := Some(columns[i].parse(second).value)] == slots[i := Some(columns[i].parse(second).value)];
      }
  }

  /**
   * After a successful sequence of binds, a slot is filled exactly when it was
   * filled before or some bind reached its column.
   */
  lemma {:induction false} BindsFill(columns: seq<Column>, slots: Slots, bs: seq<Binding>, i: nat)
    requires |slots| == |columns| && i < |slots|
    requires Binds(columns, slots, bs).Success?
    ensures Binds(columns, slots, bs).value[i].Some? <==> slots[i].Some? || Reached(columns, bs, i)
  {
    if bs != [] {
      var init, last := bs[..|bs| - 1], bs[|bs| - 1];
      BindsFill(columns, slots, init, i);
      var before := Binds(columns, slots, init).value;
      if Reached(columns, init, i) {
        var k :| 0 <= k < |init| && IndexOf(columns, init[k].column) == Some(i);
        assert bs[k] == init[k];
      }
    }
  }

  /**
   * Starting from a table's empty slots, the routing key is present after a
   * successful sequence of binds exactly when every partition-key column was
   * reached by some bind.
   */
  lemma KeyPresentIffEveryColumnBound(columns: seq<Column>, bs: seq<Binding>)
    requires Binds(columns, EmptySlots(|columns|), bs).Success?
    ensures RoutingKeyOf(Some(Binds(columns, EmptySlots(|columns|), bs).value)).Some? <==>
      forall i :: 0 <= i < |columns| ==> Reached(columns, bs, i)
  {
    var s := Binds(columns, EmptySlots(|columns|), bs).value;
    forall i | 0 <= i < |columns|
      ensures s[i].Some? <==> Reached(columns, bs, i)
    {
      BindsFill(columns, EmptySlots(|columns|), bs, i);
    }
  }

  /** With one partition-key column the key is that column's fragment, without framing. */
  lemma SingleColumnKeyUnframed(slots: Slots)
    requires |slots| == 1 && slots[0].Some?
    ensures RoutingKeyOf(Some(slots)) == slots[0]
  {
  }

  /**
   * With any other number of columns the key is a composite key: its length is
   * the sum of 2 + length + 1 over the fragments and, when every fragment is
   * shorter than 2^16, it reads back as the fragments in column order.
   */
  lemma CompositeKeyReadsBack(slots: Slots)
    requires |slots| != 1 && AllBound(slots)
    ensures |RoutingKeyOf(Some(slots)).value| == CompositeKey.TotalLength(Values(slots))
    ensures (forall i :: 0 <= i < |slots| ==> |slots[i].value| < 65536) ==>
      CompositeKey.Decompose(RoutingKeyOf(Some(slots)).value) == Some(Values(slots))
  {
    var vs := Values(slots);
    if forall i :: 0 <= i < |slots| ==> |slots[i].value| < 65536 {
      CompositeKey.DecomposeComposed(vs);
    }
  }
}
