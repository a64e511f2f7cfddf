/** Bytes, packets and concatenation, shared by the modules on the terminal byte stream. */
module Common {
  type byte = b: int | 0 <= b < 256
  type Bytes = seq<byte>

  datatype Option<+T> = None | Some(value: T)

  /** One terminal data event: a sequence number and its (decompressed) payload. */
  datatype Packet = Packet(num: nat, data: Bytes)

  function Concat(parts: seq<Bytes>): Bytes {
    if parts == [] then [] else parts[0] + Concat(parts[1..])
  }

  lemma {:induction false} ConcatAppend(a: seq<Bytes>, b: seq<Bytes>)
    ensures Concat(a + b) == Concat(a) + Concat(b)
  {
    if a == [] {
      assert a + b == b;
    } else {
      assert (a + b)[1..] == a[1..] + b;
      ConcatAppend(a[1..], b);
    }
  }

  lemma ConcatSnoc(parts: seq<Bytes>, i: nat)
    requires i < |parts|
    ensures Concat(parts[..i + 1]) == Concat(parts[..i]) + parts[i]
  {
    assert parts[..i + 1] == parts[..i] + [parts[i]];
    ConcatAppend(parts[..i], [parts[i]]);
    assert Concat([parts[i]]) == parts[i] + Concat([]);
  }

  lemma ConcatPrefix(parts: seq<Bytes>, i: nat)
    requires i <= |parts|
    ensures |Concat(parts[..i])| <= |Concat(parts)|
  {
    ConcatAppend(parts[..i], parts[i..]);
    assert parts == parts[..i] + parts[i..];
  }

  /** `concatBytes`: measure, allocate, then copy each part at its offset. */
  method ConcatBytes(parts: seq<Bytes>) returns (out: array<byte>)
    ensures fresh(out) && out[..] == Concat(parts)
  {
    var total := 0;
    for i := 0 to |parts|
      invariant total == |Concat(parts[..i])|
    {
      ConcatSnoc(parts, i);
      total := total + |parts[i]|;
    }
    assert parts[..|parts|] == parts;
    out := new byte[total];
    var offset := 0;
    for i := 0 to |parts|
      invariant 0 <= offset <= out.Length
      invariant out[..offset] == Concat(parts[..i])
    {
      ConcatSnoc(parts, i);
      ConcatPrefix(parts, i + 1);
      hide Concat;
      CopyInto(out, offset, parts[i]);
      offset := offset + |parts[i]|;
    }
    assert out[..offset] == out[..];
  }

  /** `TypedArray.prototype.set`. */
  method CopyInto(out: array<byte>, offset: nat, part: Bytes)
    requires offset + |part| <= out.Length
    modifies out
    ensures out[..offset + |part|] == old(out[..offset]) + part
  {
    for k := 0 to |part|
      invariant out[..offset + k] == old(out[..offset]) + part[..k]
    {
      out[offset + k] := part[k];
      assert out[..offset + k + 1] == out[..offset + k] + [part[k]];
    }
  }

  /** `r` consists of the elements of `s` at the increasing positions `ks`. */
  ghost predicate Picks<T>(r: seq<T>, s: seq<T>, ks: seq<nat>) {
    && |ks| == |r|
    && (forall i, j :: 0 <= i < j < |ks| ==> ks[i] < ks[j])
    && (forall i :: 0 <= i < |ks| ==> ks[i] < |s| && r[i] == s[ks[i]])
  }

  lemma PicksSnoc<T>(r: seq<T>, s: seq<T>, ks: seq<nat>, x: T)
    requires Picks(r, s, ks)
    ensures Picks(r + [x], s + [x], ks + [|s|])
  {
  }

  lemma PicksMore<T>(r: seq<T>, s: seq<T>, ks: seq<nat>, x: T)
    requires Picks(r, s, ks)
    ensures Picks(r, s + [x], ks)
  {
  }

  /** The payload of a list of packets, in order. */
  function Payload(ps: seq<Packet>): Bytes {
    if ps == [] then [] else ps[0].data + Payload(ps[1..])
  }

  lemma {:induction false} PayloadAppend(a: seq<Packet>, b: seq<Packet>)
    ensures Payload(a + b) == Payload(a) + Payload(b)
  {
    if a == [] {
      assert a + b == b;
    } else {
      assert (a + b)[1..] == a[1..] + b;
      PayloadAppend(a[1..], b);
    }
  }

  ghost predicate StrictlyIncreasing(ps: seq<Packet>) {
    forall i, j :: 0 <= i < j < |ps| ==> ps[i].num < ps[j].num
  }

  lemma MultiplesAreApart(n: int, d: int)
    requires n > 0
    ensures d >= 1 ==> n * d >= n
    ensures d <= -1 ==> n * d <= -n
  {
  }

  /** Quotient and remainder are determined by the division equation. */
  lemma DivModIs(a: int, n: int, q: int, r: int)
    requires n > 0 && a == n * q + r && 0 <= r < n
    ensures a / n == q && a % n == r
  {
    var d := a / n - q;
    assert a == n * (a / n) + a % n;
    assert n * d == r - a % n;
    MultiplesAreApart(n, d);
  }
}
