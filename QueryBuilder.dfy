/**
 * BuiltStatement and its nested ForwardingStatement: the render cache and the
 * routing-key slots of a query-builder statement, and a wrapper that forwards to
 * another statement.
 *
 * The abstract rendering hook buildQueryString is not modelled as code: each call
 * of GetQueryString receives, as `hook`, the text the concrete statement would
 * render at that moment, and the ghost counter `renders` records every time that
 * text is actually consulted.
 */
module QueryBuilder {
  import opened Wrappers
  import opened Schema
  import opened QueryText
  import opened RoutingKey
  import CompositeKey

  class BuiltStatement {
    /** The table's partition-key columns; None for a statement not tied to a table. */
    const partitionKey: Option<seq<Column>>
    /** One slot per partition-key column; null exactly when there is no partition key. */
    const routingKey: array?<Option<Bytes>>
    var dirty: bool
    var cache: Option<string>
    /** How many times the rendering hook has been consulted. */
    ghost var renders: nat

    /**
     * The slots line up with the partition key, and cached text is always
     * trimmed and terminated.
     */
    ghost predicate Valid()
      reads this
    {
      && (partitionKey.None? <==> routingKey == null)
      && (routingKey != null ==> routingKey.Length == |partitionKey.value|)
      && (cache.Some? ==> IsTrimmed(cache.value) && EndsWithSemicolon(cache.value))
    }

    /** The slots as values; None when there is no partition key. */
    ghost function Slots(): Option<Slots>
      reads this, routingKey
    {
      if routingKey == null then None else Some(routingKey[..])
    }

    /** The no-argument constructor: no partition key and no slots. */
    constructor Unbound()
      ensures Valid()
      ensures partitionKey.None? && routingKey == null
      ensures !dirty && cache.None? && renders == 0
    {
      partitionKey := None;
      routingKey := null;
      dirty := false;
      cache := None;
      renders := 0;
    }

    /** The table constructor: one empty slot per partition-key column. */
    constructor ForTable(table: TableMetadata)
      ensures Valid()
      ensures partitionKey == Some(table.partitionKey)
      ensures routingKey != null && fresh(routingKey)
      ensures routingKey.Length == |table.partitionKey|
      ensures forall i :: 0 <= i < routingKey.Length ==> routingKey[i].None?
      ensures !dirty && cache.None? && renders == 0
    {
      partitionKey := Some(table.partitionKey);
      routingKey := new Option<Bytes>[|table.partitionKey|](_ => None);
      dirty := false;
      cache := None;
      renders := 0;
    }

    /**
     * getQueryString: while the cache is fresh it is returned and nothing else
     * happens; otherwise (dirty, or nothing cached yet) the hook's text is
     * trimmed, terminated, cached and returned. The result always ends with ';'.
     * The dirty flag is never cleared.
     */
    method GetQueryString(hook: string) returns (q: string)
      requires Valid()
      modifies this`cache, this`renders
      ensures Valid()
      ensures EndsWithSemicolon(q) && IsTrimmed(q)
      ensures cache == Some(q)
      ensures !old(dirty) && old(cache).Some? ==> q == old(cache).value && renders == old(renders)
      ensures old(dirty) || old(cache).None? ==> q == Normalize(hook) && renders == old(renders) + 1
    {
      if dirty || cache.None? {
        renders := renders + 1;
        var text := Trim(hook);
        if !EndsWithSemicolon(text) {
          text := text + ";";
        }
        cache := Some(text);
      }
      q := cache.value;
    }

    /** setDirty: marks the cached text stale, and nothing else. */
    method SetDirty()
      modifies this`dirty
      ensures dirty
    {
      dirty := true;
    }

    /**
     * maybeAddRoutingKey: without slots or without a name nothing happens;
     * otherwise the value is bound to the first column of that name, as Bind
     * says. A parse failure is passed on and leaves every slot as it was.
     */
    method MaybeAddRoutingKey(name: Option<string>, value: string) returns (outcome: Outcome<Error>)
      requires Valid()
      modifies routingKey
      ensures routingKey == null || name.None? ==> outcome == Pass && Slots() == old(Slots())
      ensures routingKey != null && name.Some? ==>
        match Bind(partitionKey.value, old(routingKey[..]), name.value, value)
        case Failure(e) => outcome == Fail(e) && routingKey[..] == old(routingKey[..])
        case Success(s) => outcome == Pass && routingKey[..] == s
    {
      if routingKey == null || name.None? {
        return Pass;
      }
      var columns := partitionKey.value;
      for i := 0 to |columns|
        invariant forall k :: 0 <= k < i ==> columns[k].name != name.value
        invariant routingKey[..] == old(routingKey[..])
      {
        if name.value == columns[i].name {
          assert IndexOf(columns, name.value) == Some(i);
          match columns[i].parse(value)
          case Failure(e) =>
            return Fail(e);
          case Success(bytes) =>
            routingKey[i] := Some(bytes);
            return Pass;
        }
      }
      assert IndexOf(columns, name.value).None?;
      outcome := Pass;
    }

    /**
     * getRoutingKey: nothing without a partition key or while a slot is empty;
     * otherwise the single fragment, or the composite key of all fragments.
     */
    method GetRoutingKey() returns (key: Option<Bytes>)
      ensures key == RoutingKeyOf(Slots())
    {
      if routingKey == null {
        return None;
      }
      for i := 0 to routingKey.Length
        invariant forall k :: 0 <= k < i ==> routingKey[k].Some?
      {
        if routingKey[i].None? {
          return None;
        }
      }
      if routingKey.Length == 1 {
        return routingKey[0];
      }
      var composed := CompositeKey.Compose(Values(routingKey[..]));
      key := Some(composed);
    }
  }

  /**
   * ForwardingStatement: a statement that hands rendering and routing to the
   * statement it wraps. Its own BuiltStatement part, `inherited`, comes from the
   * no-argument constructor and so has no slots.
   */
  class ForwardingStatement {
    const inherited: BuiltStatement
    var statement: BuiltStatement

    ghost predicate Valid()
      reads this, inherited, statement
    {
      && inherited.Valid() && inherited.routingKey == null
      && statement.Valid()
      && inherited != statement
    }

    constructor (target: BuiltStatement)
      requires target.Valid()
      ensures Valid()
      ensures statement == target && fresh(inherited)
    {
      inherited := new BuiltStatement.Unbound();
      statement := target;
    }

    /** getQueryString: exactly what the wrapped statement's getQueryString does. */
    method GetQueryString(hook: string) returns (q: string)
      requires Valid()
      modifies statement`cache, statement`renders
      ensures Valid()
      ensures EndsWithSemicolon(q) && IsTrimmed(q)
      ensures statement.cache == Some(q)
      ensures !old(statement.dirty) && old(statement.cache).Some? ==>
        q == old(statement.cache).value && statement.renders == old(statement.renders)
      ensures old(statement.dirty) || old(statement.cache).None? ==>
        q == Normalize(hook) && statement.renders == old(statement.renders) + 1
    {
      q := statement.GetQueryString(hook);
    }

    /** buildQueryString: a forwarding statement never renders by itself. */
    method BuildQueryString() returns (r: Result<string, Error>)
      ensures r == Failure(UnsupportedOperation)
    {
      r := Failure(UnsupportedOperation);
    }

    /** getRoutingKey: the wrapped statement's routing key. */
    method GetRoutingKey() returns (key: Option<Bytes>)
      requires Valid()
      ensures key == RoutingKeyOf(statement.Slots())
    {
      key := statement.GetRoutingKey();
    }

    /** setDirty: marks the wrapped statement's cache stale. */
    method SetDirty()
      requires Valid()
      modifies statement`dirty
      ensures Valid()
      ensures statement.dirty
    {
      statement.SetDirty();
    }

    /**
     * maybeAddRoutingKey is not overridden: it runs on the wrapper's own slots,
     * which do not exist, so it does nothing and never reaches the wrapped
     * statement.
     */
    method MaybeAddRoutingKey(name: Option<string>, value: string) returns (outcome: Outcome<Error>)
      requires Valid()
      ensures outcome == Pass
    {
      outcome := inherited.MaybeAddRoutingKey(name, value);
    }
  }

  /**
   * Once a statement is dirty it stays dirty: every later read renders again,
   * even when the rendered text is the same.
   */
  method DirtyStatementAlwaysRerenders(s: BuiltStatement, hook: string) returns (first: string, second: string)
    requires s.Valid()
    modifies s
    ensures s.dirty
    ensures first == second == Normalize(hook)
    ensures s.renders == old(s.renders) + 2
  {
    s.SetDirty();
    first := s.GetQueryString(hook);
    second := s.GetQueryString(hook);
  }

  /** Without setDirty, the second read is a cache hit: the hook is consulted once. */
  method CleanStatementRendersOnce(table: TableMetadata, hook: string, later: string) returns (first: string, second: string)
    ensures first == second == Normalize(hook)
  {
    var s := new BuiltStatement.ForTable(table);
    first := s.GetQueryString(hook);
    assert !s.dirty && s.cache == Some(first);
    second := s.GetQueryString(later);
    assert s.renders == 1;
  }

  /**
   * Two partition-key columns bound to [01 02] and [AA]: while only the second
   * is bound there is no key, and a bind through a forwarding wrapper or to a
   * column outside the partition key changes no slot; once both are bound the
   * key is the composite 00 02 01 02 00 00 01 AA 00.
   */
  method TwoColumnKeyExample() returns (partial: Option<Bytes>, slotsAfterIgnored: Slots, stillPartial: Option<Bytes>, key: Option<Bytes>)
    ensures partial.None?
    ensures slotsAfterIgnored == [None, Some([0xAA])]
    ensures stillPartial.None?
    ensures key == Some([0x00, 0x02, 0x01, 0x02, 0x00, 0x00, 0x01, 0xAA, 0x00])
  {
    var k := Column("k", _ => Success([0x01, 0x02]));
    var c := Column("c", _ => Success([0xAA]));
    var columns := [k, c];
    assert IndexOf(columns, "k") == Some(0);
    assert IndexOf(columns, "c") == Some(1) by {
      assert IndexOf(columns[1..], "c") == Some(0);
    }
    assert IndexOf(columns, "v").None?;
    var s := new BuiltStatement.ForTable(TableMetadata(columns));
    var w := new ForwardingStatement(s);
    var outcome := s.MaybeAddRoutingKey(Some("c"), "170");
    assert s.routingKey[..] == [None, Some([0xAA])];
    partial := w.GetRoutingKey();
    outcome := w.MaybeAddRoutingKey(Some("k"), "258");
    outcome := s.MaybeAddRoutingKey(Some("v"), "x");
    slotsAfterIgnored := s.routingKey[..];
    stillPartial := w.GetRoutingKey();
    outcome := s.MaybeAddRoutingKey(Some("k"), "258");
    assert s.routingKey[..] == [Some([0x01, 0x02]), Some([0xAA])];
    key := w.GetRoutingKey();
    assert Values(s.routingKey[..]) == [[0x01, 0x02], [0xAA]];
    CompositeKey.ComposedExample();
  }
}
