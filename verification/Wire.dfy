/** Little-endian fields, bodies made of fixed-width fields, and the bounds-checked reader. */
module Wire {
  import opened Prelude

  function Pow256(n: nat): (p: nat)
    ensures p > 0
  {
    if n == 0 then 1 else 256 * Pow256(n - 1)
  }

  /** The low `n` bytes of `v`, least significant first. */
  function LittleEndian(n: nat, v: nat): (bs: seq<byte>)
    ensures |bs| == n
  {
    if n == 0 then [] else [v % 256] + LittleEndian(n - 1, v / 256)
  }

  function FromLittleEndian(bs: seq<byte>): nat {
    if bs == [] then 0 else bs[0] + 256 * FromLittleEndian(bs[1..])
  }

  lemma {:induction false} LittleEndianRoundTrip(n: nat, v: nat)
    requires v < Pow256(n)
    ensures FromLittleEndian(LittleEndian(n, v)) == v
  {
    if n > 0 {
      LittleEndianRoundTrip(n - 1, v / 256);
      assert LittleEndian(n, v)[1..] == LittleEndian(n - 1, v / 256);
    }
  }

  lemma {:induction false} LittleEndianReencode(bs: seq<byte>)
    ensures FromLittleEndian(bs) < Pow256(|bs|)
    ensures LittleEndian(|bs|, FromLittleEndian(bs)) == bs
  {
    if bs != [] {
      LittleEndianReencode(bs[1..]);
    }
  }

  /** Byte `i` is the `i`-th digit of the number to base 256, counted from the least significant. */
  lemma {:induction false} LittleEndianDigits(n: nat, v: nat, i: nat)
    requires i < n
    ensures LittleEndian(n, v)[i] == v / Pow256(i) % 256
  {
    if i > 0 {
      LittleEndianDigits(n - 1, v / 256, i - 1);
      NestedQuotient(v, Pow256(i - 1));
    }
  }

  lemma NestedQuotient(v: nat, p: nat)
    requires p > 0
    ensures v / 256 / p == v / (256 * p)
  {
    var q := v / 256 / p;
    var r, s := v % 256, v / 256 % p;
    assert v == 256 * (q * p + s) + r;
    assert v == q * (256 * p) + (256 * s + r);
    assert 256 * s + r < 256 * p;
    QuotientIs(v, 256 * p, q, 256 * s + r);
  }

  lemma QuotientIs(v: nat, d: nat, q: nat, r: nat)
    requires d > 0 && v == q * d + r && r < d
    ensures v / d == q
  {
    MultiplesInOrder(v / d, q, d);
    MultiplesInOrder(q, v / d, d);
  }

  lemma {:induction false} MultiplesInOrder(a: nat, b: nat, d: nat)
    ensures a < b ==> a * d + d <= b * d
  {
    if a + 1 < b {
      MultiplesInOrder(a, b - 1, d);
    }
  }

  lemma WordSizes()
    ensures Pow256(2) == 0x1_0000
    ensures Pow256(4) == 0x1_0000_0000
    ensures Pow256(8) == 0x1_0000_0000_0000_0000
  {
    assert Pow256(3) == 0x100_0000;
    assert Pow256(6) == 0x1_0000_0000_0000;
  }

  // Bodies

  function TotalWidth(ws: seq<nat>): nat {
    if ws == [] then 0 else ws[0] + TotalWidth(ws[1..])
  }

  lemma {:induction false} TotalWidthConcat(a: seq<nat>, b: seq<nat>)
    ensures TotalWidth(a + b) == TotalWidth(a) + TotalWidth(b)
  {
    if a == [] {
      assert a + b == b;
    } else {
      assert (a + b)[1..] == a[1..] + b;
      TotalWidthConcat(a[1..], b);
    }
  }

  lemma ShortWidths(a: nat, b: nat, c: nat, d: nat)
    ensures TotalWidth([a]) == a
    ensures TotalWidth([a, b]) == a + b
    ensures TotalWidth([a, b, c]) == a + b + c
    ensures TotalWidth([a, b, c, d]) == a + b + c + d
  {
    TotalWidthConcat([a], [b]);
    assert [a, b] == [a] + [b];
    TotalWidthConcat([a, b], [c]);
    assert [a, b, c] == [a, b] + [c];
    TotalWidthConcat([a, b, c], [d]);
    assert [a, b, c, d] == [a, b, c] + [d];
  }

  ghost predicate Fits(ws: seq<nat>, vs: seq<nat>) {
    |ws| == |vs| && forall i :: 0 <= i < |ws| ==> vs[i] < Pow256(ws[i])
  }

  /** The fields one after the other. */
  function EncodeFields(ws: seq<nat>, vs: seq<nat>): (bs: seq<byte>)
    requires |ws| == |vs|
    ensures |bs| == TotalWidth(ws)
  {
    if ws == [] then [] else LittleEndian(ws[0], vs[0]) + EncodeFields(ws[1..], vs[1..])
  }

  /** Reads the fields in order from the front of `buf`, failing at the first that is cut short. */
  function DecodeFields(ws: seq<nat>, buf: seq<byte>): (r: Option<seq<nat>>)
    ensures r.Some? ==> |r.value| == |ws|
  {
    if ws == [] then Some([])
    else if |buf| < ws[0] then None
    else
      match DecodeFields(ws[1..], buf[ws[0]..])
      case None => None
      case Some(vs) => Some([FromLittleEndian(buf[..ws[0]])] + vs)
  }

  /** A body decodes exactly when it is at least as long as its fields together. */
  lemma {:induction false} DecodesIffLongEnough(ws: seq<nat>, buf: seq<byte>)
    ensures DecodeFields(ws, buf).Some? <==> |buf| >= TotalWidth(ws)
  {
    if ws != [] && |buf| >= ws[0] {
      DecodesIffLongEnough(ws[1..], buf[ws[0]..]);
    }
  }

  lemma TakeHead(head: seq<byte>, tail: seq<byte>, rest: seq<byte>)
    ensures (head + tail + rest)[..|head|] == head
    ensures (head + tail + rest)[|head|..] == tail + rest
  {
  }

  /** Fields that fit their widths come back, whatever bytes follow the body. */
  lemma {:induction false} FieldsRoundTrip(ws: seq<nat>, vs: seq<nat>, rest: seq<byte>)
    requires Fits(ws, vs)
    ensures DecodeFields(ws, EncodeFields(ws, vs) + rest) == Some(vs)
  {
    if ws != [] {
      var head, tail := LittleEndian(ws[0], vs[0]), EncodeFields(ws[1..], vs[1..]);
      LittleEndianRoundTrip(ws[0], vs[0]);
      FieldsRoundTrip(ws[1..], vs[1..], rest);
      TakeHead(head, tail, rest);
      assert [vs[0]] + vs[1..] == vs;
    }
  }

  /** What was decoded fits its widths and re-encodes to exactly the bytes consumed. */
  lemma {:induction false} FieldsReencode(ws: seq<nat>, buf: seq<byte>)
    requires DecodeFields(ws, buf).Some?
    ensures Fits(ws, DecodeFields(ws, buf).value)
    ensures TotalWidth(ws) <= |buf| && EncodeFields(ws, DecodeFields(ws, buf).value) == buf[..TotalWidth(ws)]
  {
    if ws != [] {
      var w := ws[0];
      var vs := DecodeFields(ws, buf).value;
      LittleEndianReencode(buf[..w]);
      FieldsReencode(ws[1..], buf[w..]);
      assert vs[1..] == DecodeFields(ws[1..], buf[w..]).value;
      assert buf[..w] + buf[w..][..TotalWidth(ws[1..])] == buf[..TotalWidth(ws)];
    }
  }

  /** Where each field of a body is found. */
  lemma {:induction false} FieldAt(ws: seq<nat>, buf: seq<byte>, i: nat)
    requires DecodeFields(ws, buf).Some? && i < |ws|
    ensures TotalWidth(ws[..i]) + ws[i] <= |buf|
    ensures DecodeFields(ws, buf).value[i] == FromLittleEndian(buf[TotalWidth(ws[..i])..TotalWidth(ws[..i]) + ws[i]])
  {
    hide FromLittleEndian;
    if i > 0 {
      FieldAt(ws[1..], buf[ws[0]..], i - 1);
      assert ws[..i][1..] == ws[1..][..i - 1];
      var from := TotalWidth(ws[1..][..i - 1]);
      assert buf[ws[0]..][from..from + ws[i]] == buf[ws[0] + from..ws[0] + from + ws[i]];
    }
  }

  /** Reading a prefix of the fields and then the others is reading them all. */
  lemma {:induction false} SplitRead(ws: seq<nat>, buf: seq<byte>, k: nat)
    requires k <= |ws| && |buf| >= TotalWidth(ws[..k])
    ensures DecodeFields(ws[..k], buf).Some?
    ensures DecodeFields(ws, buf) ==
            Prepend(DecodeFields(ws[..k], buf).value, DecodeFields(ws[k..], buf[TotalWidth(ws[..k])..]))
  {
    hide FromLittleEndian;
    if k == 0 {
      assert ws[0..] == ws && buf[0..] == buf;
      PrependNone(DecodeFields(ws, buf));
    } else {
      assert ws[..k][1..] == ws[1..][..k - 1] && ws[1..][k - 1..] == ws[k..];
      SplitRead(ws[1..], buf[ws[0]..], k - 1);
      assert buf[ws[0]..][TotalWidth(ws[1..][..k - 1])..] == buf[TotalWidth(ws[..k])..];
      PrependFirst(FromLittleEndian(buf[..ws[0]]), DecodeFields(ws[1..][..k - 1], buf[ws[0]..]).value,
                   DecodeFields(ws[k..], buf[TotalWidth(ws[..k])..]));
    }
  }

  lemma {:induction false} SplitFields(ws: seq<nat>, vs: seq<nat>, k: nat)
    requires |ws| == |vs| && k <= |ws|
    ensures EncodeFields(ws, vs) == EncodeFields(ws[..k], vs[..k]) + EncodeFields(ws[k..], vs[k..])
  {
    if k == 0 {
      assert ws[0..] == ws && vs[0..] == vs;
    } else {
      SplitFields(ws[1..], vs[1..], k - 1);
      assert ws[..k][1..] == ws[1..][..k - 1] && vs[..k][1..] == vs[1..][..k - 1];
      assert ws[1..][k - 1..] == ws[k..] && vs[1..][k - 1..] == vs[k..];
    }
  }

  lemma OneField(w: nat, v: nat)
    ensures EncodeFields([w], [v]) == LittleEndian(w, v)
  {
    assert [w][1..] == [] && [v][1..] == [];
  }

  lemma AppendField(ws: seq<nat>, vs: seq<nat>, w: nat, v: nat)
    requires |ws| == |vs|
    ensures EncodeFields(ws + [w], vs + [v]) == EncodeFields(ws, vs) + LittleEndian(w, v)
  {
    hide LittleEndian, EncodeFields;
    var ws', vs' := ws + [w], vs + [v];
    SplitFields(ws', vs', |ws|);
    OneField(w, v);
    assert ws'[..|ws|] == ws && vs'[..|vs|] == vs && ws'[|ws|..] == [w] && vs'[|vs|..] == [v];
  }

  // Bodies of up to four fields, written out after the bytes already there.

  lemma Body1(out: seq<byte>, a: nat, w: nat)
    ensures out + LittleEndian(a, w) == out + EncodeFields([a], [w])
  {
    OneField(a, w);
  }

  lemma Body2(out: seq<byte>, a: nat, b: nat, w: nat, x: nat)
    ensures out + LittleEndian(a, w) + LittleEndian(b, x) == out + EncodeFields([a, b], [w, x])
  {
    hide LittleEndian, EncodeFields;
    OneField(a, w);
    AppendField([a], [w], b, x);
    assert [a] + [b] == [a, b] && [w] + [x] == [w, x];
  }

  lemma Body3(out: seq<byte>, a: nat, b: nat, c: nat, w: nat, x: nat, y: nat)
    ensures out + LittleEndian(a, w) + LittleEndian(b, x) + LittleEndian(c, y) == out + EncodeFields([a, b, c], [w, x, y])
  {
    hide LittleEndian, EncodeFields;
    Body2(out, a, b, w, x);
    AppendField([a, b], [w, x], c, y);
    assert [a, b] + [c] == [a, b, c] && [w, x] + [y] == [w, x, y];
  }

  lemma Body4(out: seq<byte>, a: nat, b: nat, c: nat, d: nat, w: nat, x: nat, y: nat, z: nat)
    ensures out + LittleEndian(a, w) + LittleEndian(b, x) + LittleEndian(c, y) + LittleEndian(d, z) ==
            out + EncodeFields([a, b, c, d], [w, x, y, z])
  {
    hide LittleEndian, EncodeFields;
    Body3(out, a, b, c, w, x, y);
    AppendField([a, b, c], [w, x, y], d, z);
    assert [a, b, c] + [d] == [a, b, c, d] && [w, x, y] + [z] == [w, x, y, z];
  }

  lemma SplitAround(ws: seq<nat>, vs: seq<nat>, k: nat)
    requires |ws| == |vs| && k < |ws|
    ensures EncodeFields(ws, vs) ==
            EncodeFields(ws[..k], vs[..k]) + LittleEndian(ws[k], vs[k]) + EncodeFields(ws[k + 1..], vs[k + 1..])
  {
    SplitFields(ws, vs, k);
    assert ws[k..][1..] == ws[k + 1..] && vs[k..][1..] == vs[k + 1..];
  }

  /** Changing one field changes its own bytes and no others. */
  lemma ReplaceField(ws: seq<nat>, vs: seq<nat>, k: nat, v: nat)
    requires |ws| == |vs| && k < |ws|
    ensures var from := TotalWidth(ws[..k]);
            var full := EncodeFields(ws, vs);
            from + ws[k] <= |full| &&
            EncodeFields(ws, vs[k := v]) == full[..from] + LittleEndian(ws[k], v) + full[from + ws[k]..]
  {
    SplitAround(ws, vs, k);
    SplitAround(ws, vs[k := v], k);
    assert vs[k := v][..k] == vs[..k] && vs[k := v][k + 1..] == vs[k + 1..];
    TakeHead(EncodeFields(ws[..k], vs[..k]), LittleEndian(ws[k], vs[k]), EncodeFields(ws[k + 1..], vs[k + 1..]));
    TakeBoth(EncodeFields(ws[..k], vs[..k]), LittleEndian(ws[k], vs[k]), EncodeFields(ws[k + 1..], vs[k + 1..]));
  }

  lemma TakeBoth(head: seq<byte>, tail: seq<byte>, rest: seq<byte>)
    ensures (head + tail + rest)[|head| + |tail|..] == rest
  {
  }

  // The reader

  class Reader {
    const buf: seq<byte>
    var pos: nat

    constructor (buf: seq<byte>)
      ensures this.buf == buf && pos == 0
    {
      this.buf := buf;
      pos := 0;
    }

    /** Takes `width` bytes and reads them as one number; a short buffer leaves `pos` alone. */
    method Read(width: nat) returns (r: Option<nat>)
      requires pos <= |buf|
      modifies this
      ensures pos <= |buf|
      ensures if old(pos) + width <= |buf|
              then pos == old(pos) + width && r == Some(FromLittleEndian(buf[old(pos)..pos]))
              else pos == old(pos) && r == None
    {
      var end := pos + width;
      if end > |buf| {
        return None;
      }
      r := Some(FromLittleEndian(buf[pos..end]));
      pos := end;
    }

    /** A body decoder: one read per field, giving up at the first that fails. */
    method ReadFields(ws: seq<nat>) returns (r: Option<seq<nat>>)
      requires pos <= |buf|
      modifies this
      ensures pos <= |buf|
      ensures r == DecodeFields(ws, buf[old(pos)..])
      ensures r.Some? ==> pos == old(pos) + TotalWidth(ws)
    {
      ghost var start := pos;
      var vs: seq<nat> := [];
      var i := 0;
      assert ws[0..] == ws;
      PrependNone(DecodeFields(ws, buf[pos..]));
      while i < |ws|
        invariant i <= |ws| && |vs| == i && start <= pos <= |buf|
        invariant TotalWidth(ws) == pos - start + TotalWidth(ws[i..])
        invariant DecodeFields(ws, buf[start..]) == Prepend(vs, DecodeFields(ws[i..], buf[pos..]))
      {
        assert ws[i..][1..] == ws[i + 1..];
        ghost var from := pos;
        var v := Read(ws[i]);
        if v.None? {
          return None;
        }
        assert buf[from..][ws[i]..] == buf[pos..];
        assert buf[from..][..ws[i]] == buf[from..pos];
        PrependOne(vs, v.value, DecodeFields(ws[i + 1..], buf[pos..]));
        vs := vs + [v.value];
        i := i + 1;
      }
      r := Some(vs);
      assert vs + [] == vs;
    }
  }

  ghost function Prepend(vs: seq<nat>, r: Option<seq<nat>>): Option<seq<nat>> {
    if r.None? then None else Some(vs + r.value)
  }

  lemma PrependNone(r: Option<seq<nat>>)
    ensures Prepend([], r) == r
  {
    if r.Some? {
      assert [] + r.value == r.value;
    }
  }

  lemma PrependFirst(v: nat, vs: seq<nat>, r: Option<seq<nat>>)
    ensures Prepend([v], Prepend(vs, r)) == Prepend([v] + vs, r)
  {
    if r.Some? {
      assert [v] + (vs + r.value) == [v] + vs + r.value;
    }
  }

  lemma PrependOne(vs: seq<nat>, v: nat, r: Option<seq<nat>>)
    ensures Prepend(vs, Prepend([v], r)) == Prepend(vs + [v], r)
  {
    if r.Some? {
      assert vs + ([v] + r.value) == vs + [v] + r.value;
    }
  }
}
