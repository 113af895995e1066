/**
 The UTF-8 encoding of RFC 3629, section 3, with its decoding, and the windows of whole characters inside an encoded
 text.
 */
module Utf8 {
  type Byte = b: int | 0 <= b < 0x100

  /** Unicode scalar values: code points without the surrogates. */
  type Scalar = c: int | 0 <= c < 0x110000 && !(0xD800 <= c < 0xE000)

  function Encode(c: Scalar): (bytes: seq<Byte>)
    ensures 1 <= |bytes| <= 4
    ensures !IsContinuation(bytes[0]) && forall i :: 1 <= i < |bytes| ==> IsContinuation(bytes[i])
  {
    if c < 0x80 then [c]
    else if c < 0x800 then [0xC0 + c / 0x40, 0x80 + c % 0x40]
    else if c < 0x10000 then [0xE0 + c / 0x1000, 0x80 + c / 0x40 % 0x40, 0x80 + c % 0x40]
    else [0xF0 + c / 0x40000, 0x80 + c / 0x1000 % 0x40, 0x80 + c / 0x40 % 0x40, 0x80 + c % 0x40]
  }

  /** A byte whose two high bits are 10. */
  predicate IsContinuation(b: Byte) {
    0x80 <= b < 0xC0
  }

  /** The lengths and first bytes of the table in section 3 of RFC 3629: no character takes more bytes than it needs. */
  lemma EncodingIsShortest(c: Scalar)
    ensures |Encode(c)| == if c <= 0x7F then 1 else if c <= 0x7FF then 2 else if c <= 0xFFFF then 3 else 4
    ensures match |Encode(c)|
            case 1 => Encode(c)[0] == c
            case 2 => 0xC2 <= Encode(c)[0] <= 0xDF
            case 3 => 0xE0 <= Encode(c)[0] <= 0xEF
            case _ => 0xF0 <= Encode(c)[0] <= 0xF4
  {
  }

  function EncodeAll(text: seq<Scalar>): seq<Byte> {
    if text == [] then [] else Encode(text[0]) + EncodeAll(text[1..])
  }

  /** The number of bytes that a first byte announces. */
  function LengthFrom(b: Byte): nat {
    if b < 0x80 then 1 else if b < 0xE0 then 2 else if b < 0xF0 then 3 else 4
  }

  const REPLACEMENT: Scalar := 0xFFFD

  function ValueOf(bytes: seq<Byte>): int
    requires |bytes| > 0 && |bytes| >= LengthFrom(bytes[0])
  {
    var n := LengthFrom(bytes[0]);
    var lead: int := bytes[0];
    if n == 1 then lead
    else if n == 2 then (lead - 0xC0) * 0x40 + Payload(bytes[1])
    else if n == 3 then (lead - 0xE0) * 0x1000 + Payload(bytes[1]) * 0x40 + Payload(bytes[2])
    else (lead - 0xF0) * 0x40000 + Payload(bytes[1]) * 0x1000 + Payload(bytes[2]) * 0x40 + Payload(bytes[3])
  }

  function Payload(b: Byte): int {
    b as int - 0x80
  }

  /** Reads one character after another; a byte that begins none becomes a replacement character. */
  function Decode(bytes: seq<Byte>): seq<Scalar> {
    if bytes == [] then []
    else
      var n := LengthFrom(bytes[0]);
      if n <= |bytes| && 0 <= ValueOf(bytes) < 0x110000 && !(0xD800 <= ValueOf(bytes) < 0xE000)
         && Encode(ValueOf(bytes)) == bytes[..n] then
        [ValueOf(bytes)] + Decode(bytes[n..])
      else [REPLACEMENT] + Decode(bytes[1..])
  }

  /** The six-bit groups of a number. */
  lemma Groups(c: nat)
    ensures c == c / 0x40 * 0x40 + c % 0x40
    ensures c / 0x40 == c / 0x1000 * 0x40 + c / 0x40 % 0x40
    ensures c / 0x1000 == c / 0x40000 * 0x40 + c / 0x1000 % 0x40
  {
    assert c / 0x40 / 0x40 == c / 0x1000;
    assert c / 0x1000 / 0x40 == c / 0x40000;
  }

  lemma EncodedValue(c: Scalar, bytes: seq<Byte>)
    requires |bytes| >= |Encode(c)| && bytes[..|Encode(c)|] == Encode(c)
    ensures LengthFrom(bytes[0]) == |Encode(c)| && ValueOf(bytes) == c
  {
    Groups(c);
    var e := Encode(c);
    assert forall i :: 0 <= i < |e| ==> bytes[i] == e[i];
  }

  lemma FirstCharacter(c: Scalar, rest: seq<Byte>)
    ensures var bytes := Encode(c) + rest;
      LengthFrom(bytes[0]) == |Encode(c)| && ValueOf(bytes) == c
  {
    var bytes := Encode(c) + rest;
    assert bytes[..|Encode(c)|] == Encode(c);
    EncodedValue(c, bytes);
  }

  /** What is encoded decodes to itself. */
  lemma {:induction false} DecodeEncode(text: seq<Scalar>)
    ensures Decode(EncodeAll(text)) == text
  {
    if text != [] {
      var rest := EncodeAll(text[1..]);
      var bytes := Encode(text[0]) + rest;
      FirstCharacter(text[0], rest);
      DecodeEncode(text[1..]);
      assert bytes[..|Encode(text[0])|] == Encode(text[0]) && bytes[|Encode(text[0])|..] == rest;
    }
  }

  lemma {:induction false} EncodeConcat(a: seq<Scalar>, b: seq<Scalar>)
    ensures EncodeAll(a + b) == EncodeAll(a) + EncodeAll(b)
  {
    if a == [] {
      assert a + b == b;
    } else {
      EncodeConcat(a[1..], b);
      assert (a + b)[1..] == a[1..] + b;
    }
  }

  // ---------------------------------------------------------------- character boundaries

  /** Where the character at index `k` begins. */
  function Offset(text: seq<Scalar>, k: nat): nat
    requires k <= |text|
  {
    |EncodeAll(text[..k])|
  }

  predicate IsBoundary(bytes: seq<Byte>, p: nat)
    requires p <= |bytes|
  {
    p == |bytes| || !IsContinuation(bytes[p])
  }

  lemma {:induction false} OffsetAfterFirst(text: seq<Scalar>, k: nat)
    requires 1 <= k <= |text|
    ensures Offset(text, k) == |Encode(text[0])| + Offset(text[1..], k - 1)
  {
    assert text[..k][1..] == text[1..][..k - 1];
  }

  /** Slices of the encoding between offsets are encodings of slices. */
  lemma SliceIsEncoded(text: seq<Scalar>, i: nat, j: nat)
    requires i <= j <= |text|
    ensures Offset(text, i) <= Offset(text, j) <= |EncodeAll(text)|
    ensures EncodeAll(text)[Offset(text, i)..Offset(text, j)] == EncodeAll(text[i..j])
  {
    EncodeConcat(text[..i], text[i..j]);
    assert text[..i] + text[i..j] == text[..j];
    EncodeConcat(text[..j], text[j..]);
    assert text[..j] + text[j..] == text;
  }

  lemma BoundaryIsPastFirst(text: seq<Scalar>, p: nat)
    requires 1 <= p <= |EncodeAll(text)| && IsBoundary(EncodeAll(text), p)
    ensures text != [] && |Encode(text[0])| <= p
  {
    FirstContinues(text);
  }

  lemma FirstContinues(text: seq<Scalar>)
    requires text != []
    ensures |Encode(text[0])| <= |EncodeAll(text)|
    ensures forall q :: 1 <= q < |Encode(text[0])| ==> IsContinuation(EncodeAll(text)[q])
  {
    assert forall q :: 0 <= q < |Encode(text[0])| ==> EncodeAll(text)[q] == Encode(text[0])[q];
  }

  /** A position of the encoding is a boundary exactly if some character, or the end of the text, is there. */
  lemma {:induction false} BoundaryIsOffset(text: seq<Scalar>, p: nat) returns (k: nat)
    requires p <= |EncodeAll(text)| && IsBoundary(EncodeAll(text), p)
    ensures k <= |text| && Offset(text, k) == p
  {
    if p == 0 {
      k := 0;
      assert text[..0] == [];
    } else {
      BoundaryIsPastFirst(text, p);
      var n := |Encode(text[0])|;
      assert p < |EncodeAll(text)| ==> EncodeAll(text)[p] == EncodeAll(text[1..])[p - n];
      var m := BoundaryIsOffset(text[1..], p - n);
      k := m + 1;
      OffsetAfterFirst(text, k);
    }
  }

  lemma {:induction false} OffsetIsBoundary(text: seq<Scalar>, k: nat)
    requires k <= |text|
    ensures Offset(text, k) <= |EncodeAll(text)| && IsBoundary(EncodeAll(text), Offset(text, k))
  {
    SliceIsEncoded(text, k, |text|);
    var p := Offset(text, k);
    assert text[k..|text|] == text[k..] && text[..|text|] == text;
    if k < |text| {
      assert EncodeAll(text)[p..][0] == Encode(text[k])[0];
    }
  }

  /** No position is further than three bytes from a boundary, on either side. */
  lemma {:induction false} BoundaryIsNear(text: seq<Scalar>, p: nat) returns (before: nat, after: nat)
    requires p <= |EncodeAll(text)|
    ensures before <= p <= after <= |EncodeAll(text)| && p - before <= 3 && after - p <= 3
    ensures IsBoundary(EncodeAll(text), before) && IsBoundary(EncodeAll(text), after)
  {
    if p == |EncodeAll(text)| {
      before, after := p, p;
    } else {
      var n := |Encode(text[0])|;
      var all, rest := EncodeAll(text), EncodeAll(text[1..]);
      assert forall q :: n <= q < |all| ==> all[q] == rest[q - n];
      if p < n {
        before, after := 0, if p == 0 then 0 else n;
        if after < |all| && after == n {
          assert rest == Encode(text[1..][0]) + EncodeAll(text[1..][1..]);
        }
      } else {
        var b, a := BoundaryIsNear(text[1..], p - n);
        before, after := b + n, a + n;
      }
    }
  }

  // ---------------------------------------------------------------- windows

  /** `s..e` is `start..end` with both ends rounded inward over continuation bytes. */
  ghost predicate IsRounded(bytes: seq<Byte>, start: nat, end: nat, s: nat, e: nat)
    requires end <= |bytes|
  {
    && start <= s <= e <= end
    && (forall x :: start <= x < s ==> IsContinuation(bytes[x])) && (s == end || !IsContinuation(bytes[s]))
    && (e == end || (end < |bytes| && forall x :: e < x <= end ==> IsContinuation(bytes[x])))
    && (e == s || IsBoundary(bytes, e))
  }

  method CompleteWindow(bytes: seq<Byte>, start: nat, end: nat) returns (s: nat, e: nat)
    requires start <= end <= |bytes|
    ensures IsRounded(bytes, start, end, s, e)
  {
    s, e := start, end;
    while s < e && IsContinuation(bytes[s])
      invariant start <= s <= e
      invariant forall x :: start <= x < s ==> IsContinuation(bytes[x])
    {
      s := s + 1;
    }
    while e > s && e < |bytes| && IsContinuation(bytes[e])
      invariant s <= e <= end
      invariant e == end || (end < |bytes| && forall x :: e < x <= end ==> IsContinuation(bytes[x]))
    {
      e := e - 1;
    }
  }

  /**
   * The window of an encoded text is the largest run of whole characters inside the range: it is the encoding of
   * `text[i..j]`, every character that lies in the range is among them, and at most three bytes are lost at each end.
   */
  lemma WindowIsLargestRun(text: seq<Scalar>, start: nat, end: nat, s: nat, e: nat) returns (i: nat, j: nat)
    requires start <= end <= |EncodeAll(text)| && IsRounded(EncodeAll(text), start, end, s, e)
    ensures i <= j <= |text| && EncodeAll(text)[s..e] == EncodeAll(text[i..j])
    ensures forall k :: 0 <= k < |text| && start <= Offset(text, k) && Offset(text, k + 1) <= end ==> i <= k < j
    ensures s - start <= 3 && end - e <= 3
    ensures s < e ==> Offset(text, i) == s && Offset(text, j) == e
  {
    var bytes := EncodeAll(text);
    WindowLosesLittle(text, start, end, s, e);
    if s < e {
      i := BoundaryIsOffset(text, s);
      j := BoundaryIsOffset(text, e);
      if j < i {
        SliceIsEncoded(text, j, i);
      }
      SliceIsEncoded(text, i, j);
    } else {
      i, j := 0, 0;
    }
    forall k | 0 <= k < |text| && start <= Offset(text, k) && Offset(text, k + 1) <= end
      ensures i <= k < j
    {
      CharacterIsKept(text, start, end, s, e, k);
      if k < i {
        SliceIsEncoded(text, k + 1, i);
      }
      if j <= k {
        SliceIsEncoded(text, j, k);
      }
    }
  }

  lemma EncodedIsLonger(text: seq<Scalar>, k: nat)
    requires k < |text|
    ensures Offset(text, k) < Offset(text, k + 1)
  {
    EncodeConcat(text[..k], [text[k]]);
    assert text[..k] + [text[k]] == text[..k + 1];
    assert EncodeAll([text[k]]) == Encode(text[k]) + [];
  }

  lemma CharacterIsKept(text: seq<Scalar>, start: nat, end: nat, s: nat, e: nat, k: nat)
    requires start <= end <= |EncodeAll(text)| && IsRounded(EncodeAll(text), start, end, s, e)
    requires k < |text| && start <= Offset(text, k) && Offset(text, k + 1) <= end
    ensures s <= Offset(text, k) < Offset(text, k + 1) <= e
  {
    OffsetIsBoundary(text, k);
    OffsetIsBoundary(text, k + 1);
    EncodedIsLonger(text, k);
  }

  lemma WindowLosesLittle(text: seq<Scalar>, start: nat, end: nat, s: nat, e: nat)
    requires start <= end <= |EncodeAll(text)| && IsRounded(EncodeAll(text), start, end, s, e)
    ensures s - start <= 3 && end - e <= 3
  {
    var before, after := BoundaryIsNear(text, start);
    var b, a := BoundaryIsNear(text, end);
  }
}
