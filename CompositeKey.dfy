/**
 * The composite routing-key format built by BuiltStatement.compose: for each
 * component in order, a big-endian two-byte length, the component's bytes and a
 * zero byte. The functions say what the bytes are; the methods build them in a
 * buffer step by step, as compose and putShortLength do, and are proved to agree
 * with the functions.
 */
module CompositeKey {
  import opened Wrappers
  import opened Schema

  /**
   * The two bytes putShortLength writes: (length >> 8) & 0xFF, then length & 0xFF.
   */
  function ShortLength(length: nat): (r: Bytes)
    ensures |r| == 2
  {
    [((length / 256) % 256) as byte, (length % 256) as byte]
  }

  /**
   * Read back big-endian, the two length bytes give the length modulo 2^16: a
   * length above 65535 is silently truncated.
   */
  lemma ShortLengthValue(length: nat)
    ensures ShortLength(length)[0] as int * 256 + ShortLength(length)[1] as int == length % 65536
  {
    var q := length / 65536;
    var m := length % 65536;
    assert length == q * 65536 + m;
    assert length / 256 == q * 256 + m / 256;
    assert (length / 256) % 256 == m / 256;
    assert length % 256 == m % 256;
  }

  /** One component of a composite key: length prefix, value, end-of-component byte. */
  function Record(v: Bytes): (r: Bytes)
    ensures |r| == 2 + |v| + 1
  {
    ShortLength(|v|) + v + [0]
  }

  /** The size compose allocates: the sum of 2 + length + 1 over the components. */
  function TotalLength(vs: seq<Bytes>): (n: nat)
    ensures n >= 3 * |vs|
  {
    if vs == [] then 0 else TotalLength(vs[..|vs| - 1]) + 2 + |vs[|vs| - 1]| + 1
  }

  /**
   * The bytes compose returns: the records of the components, in order. The
   * key is exactly as long as the buffer compose allocates.
   */
  function Composed(vs: seq<Bytes>): (r: Bytes)
    ensures |r| == TotalLength(vs)
  {
    if vs == [] then [] else Composed(vs[..|vs| - 1]) + Record(vs[|vs| - 1])
  }

  /**
   * A reader of the format, the partner of Composed: it splits a composite key
   * back into its components, or fails on bytes that are not a well-formed key.
   */
  function Decompose(bytes: Bytes): Option<seq<Bytes>>
    decreases |bytes|
  {
    if bytes == [] then Some([])
    else if |bytes| < 2 then None
    else
      var length := bytes[0] as int * 256 + bytes[1] as int;
      if |bytes| < 2 + length + 1 || bytes[2 + length] != 0 then None
      else match Decompose(bytes[2 + length + 1..])
        case None => None
        case Some(rest) => Some([bytes[2..2 + length]] + rest)
  }

  /** Adding a component appends its record and leaves the earlier bytes alone. */
  lemma ComposedSnoc(vs: seq<Bytes>, v: Bytes)
    ensures Composed(vs + [v]) == Composed(vs) + Record(v)
  {
    assert (vs + [v])[..|vs|] == vs;
  }

  /** Read from the front, the key starts with the first component's record. */
  lemma {:induction false} ComposedCons(v: Bytes, vs: seq<Bytes>)
    ensures Composed([v] + vs) == Record(v) + Composed(vs)
  {
    assert [v] == [] + [v];
    ComposedSnoc([], v);
    ComposedConcat([v], vs);
  }

  /** The key of a concatenation of component lists is the concatenation of their keys. */
  lemma {:induction false} ComposedConcat(a: seq<Bytes>, b: seq<Bytes>)
    ensures Composed(a + b) == Composed(a) + Composed(b)
  {
    if b == [] {
      assert a + b == a;
    } else {
      var init, last := b[..|b| - 1], b[|b| - 1];
      assert b == init + [last];
      assert a + b == (a + init) + [last];
      ComposedSnoc(a + init, last);
      ComposedConcat(a, init);
      ComposedSnoc(init, last);
    }
  }

  /** The length prefix of a record can be read back when the value is shorter than 2^16. */
  lemma RecordPrefix(v: Bytes, rest: Bytes)
    requires |v| < 65536
    ensures var bytes := Record(v) + rest;
      |bytes| >= 2 + |v| + 1 &&
      bytes[0] as int * 256 + bytes[1] as int == |v| &&
      bytes[2..2 + |v|] == v && bytes[2 + |v|] == 0 &&
      bytes[2 + |v| + 1..] == rest
  {
    var bytes := Record(v) + rest;
    assert bytes[..|Record(v)|] == Record(v);
    assert bytes[|Record(v)|..] == rest;
  }

  /** Round trip: every composite key of components shorter than 2^16 reads back as its components. */
  lemma {:induction false} DecomposeComposed(vs: seq<Bytes>)
    requires forall i :: 0 <= i < |vs| ==> |vs[i]| < 65536
    ensures Decompose(Composed(vs)) == Some(vs)
  {
    if vs != [] {
      var v, tail := vs[0], vs[1..];
      assert vs == [v] + tail;
      ComposedCons(v, tail);
      RecordPrefix(v, Composed(tail));
      DecomposeComposed(tail);
    }
  }

  /**
   * The converse of the round trip: a composite key with a component of 2^16
   * bytes or more does not read back as its components, because the prefix
   * records only the length modulo 2^16.
   */
  lemma {:induction false} DecomposeRejectsLongComponent(vs: seq<Bytes>)
    requires exists i :: 0 <= i < |vs| && |vs[i]| >= 65536
    ensures Decompose(Composed(vs)) != Some(vs)
  {
    var v, tail := vs[0], vs[1..];
    assert vs == [v] + tail;
    ComposedCons(v, tail);
    var bytes := Composed(vs);
    assert bytes == Record(v) + Composed(tail);
    if |v| >= 65536 {
      ShortLengthValue(|v|);
      assert bytes[0] == ShortLength(|v|)[0] && bytes[1] == ShortLength(|v|)[1];
      var length := bytes[0] as int * 256 + bytes[1] as int;
      assert length < |v|;
      match Decompose(bytes)
      case None =>
      case Some(r) =>
        assert r[0] == bytes[2..2 + length];
        assert |r[0]| != |v|;
    } else {
      RecordPrefix(v, Composed(tail));
      var i :| 0 <= i < |vs| && |vs[i]| >= 65536;
      assert tail[i - 1] == vs[i];
      DecomposeRejectsLongComponent(tail);
    }
  }

  /** A component of 65536 bytes gets the length prefix 00 00: the length is taken modulo 2^16. */
  lemma LengthPrefixWraps(v: Bytes)
    requires |v| == 65536
    ensures Record(v)[0] == 0 && Record(v)[1] == 0
  {
  }

  /** Two components [01 02] and [AA] give the nine bytes 00 02 01 02 00 00 01 AA 00. */
  lemma ComposedExample()
    ensures Composed([[0x01, 0x02], [0xAA]]) == [0x00, 0x02, 0x01, 0x02, 0x00, 0x00, 0x01, 0xAA, 0x00]
  {
    var vs: seq<Bytes> := [[0x01, 0x02], [0xAA]];
    assert vs[..1] == [[0x01, 0x02]];
    assert vs[..1][..0] == [];
  }

  /** Every prefix of the component list needs at most the whole buffer. */
  lemma {:induction false} TotalLengthPrefix(vs: seq<Bytes>, i: nat)
    requires i <= |vs|
    ensures TotalLength(vs[..i]) <= TotalLength(vs)
    decreases |vs| - i
  {
    if i < |vs| {
      var init := vs[..|vs| - 1];
      assert init[..i] == vs[..i];
      TotalLengthPrefix(init, i);
    } else {
      assert vs[..i] == vs;
    }
  }

  /** putShortLength: writes the two length bytes at `pos` and moves past them. */
  method PutShortLength(out: array<byte>, pos: nat, length: nat) returns (next: nat)
    requires pos + 2 <= out.Length
    modifies out
    ensures next == pos + 2
    ensures out[pos] as int * 256 + out[pos + 1] as int == length % 65536
    ensures out[..] == old(out[..pos]) + ShortLength(length) + old(out[pos + 2..])
  {
    var prefix := ShortLength(length);
    ShortLengthValue(length);
    out[pos] := prefix[0];
    out[pos + 1] := prefix[1];
    next := pos + 2;
    assert out[..] == old(out[..pos]) + ShortLength(length) + old(out[pos + 2..]);
  }

  /** ByteBuffer.put(bb): copies the bytes of `v` into `out` from `pos` on. */
  method Put(out: array<byte>, pos: nat, v: Bytes) returns (next: nat)
    requires pos + |v| <= out.Length
    modifies out
    ensures next == pos + |v|
    ensures out[..] == old(out[..pos]) + v + old(out[pos + |v|..])
  {
    for k := 0 to |v|
      invariant out[..] == old(out[..pos]) + v[..k] + old(out[pos + k..])
    {
      out[pos + k] := v[k];
      assert v[..k + 1] == v[..k] + [v[k]];
    }
    assert v[..|v|] == v;
    next := pos + |v|;
  }

  /** The body of compose's second loop: one component's record written at `pos`. */
  method PutRecord(out: array<byte>, pos: nat, v: Bytes) returns (next: nat)
    requires pos + |Record(v)| <= out.Length
    modifies out
    ensures next == pos + |Record(v)|
    ensures out[..next] == old(out[..pos]) + Record(v)
    ensures out[next..] == old(out[next..])
  {
    ghost var before := out[..pos];
    next := PutShortLength(out, pos, |v|);
    assert out[..next] == before + ShortLength(|v|);
    next := Put(out, next, v);
    assert out[..next] == before + ShortLength(|v|) + v;
    out[next] := 0;
    next := next + 1;
    assert out[..next] == before + ShortLength(|v|) + v + [0];
  }

  /**
   * compose: sums the record sizes, allocates a buffer of that size and fills it
   * with the records in order. The result is the composite key of the components.
   */
  method Compose(buffers: seq<Bytes>) returns (out: Bytes)
    ensures out == Composed(buffers)
    ensures |out| == TotalLength(buffers)
  {
    var totalLength := 0;
    for i := 0 to |buffers|
      invariant totalLength == TotalLength(buffers[..i])
    {
      assert buffers[..i + 1][..i] == buffers[..i];
      totalLength := totalLength + 2 + |buffers[i]| + 1;
    }
    assert buffers[..|buffers|] == buffers;

    var buf := new byte[totalLength];
    var pos := 0;
    for i := 0 to |buffers|
      invariant pos == TotalLength(buffers[..i]) <= totalLength
      invariant buf[..pos] == Composed(buffers[..i])
    {
      assert buffers[..i + 1][..i] == buffers[..i];
      TotalLengthPrefix(buffers, i + 1);
      pos := PutRecord(buf, pos, buffers[i]);
    }
    out := buf[..];
    assert out == buf[..pos];
  }
}
