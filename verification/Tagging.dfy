/** The tagged stream codec: integers in nibbles, tags in groups of seven bits, and frames of tag, length and
    payload. */
module Tagging {
  import opened Bytes


  // ---- integers as nibbles, the least significant first ----

  function Nibbles(n: nat): (s: seq<nat>)
    ensures s != [] && forall i :: 0 <= i < |s| ==> s[i] < 16
  {
    if n < 16 then [n] else [n % 16] + Nibbles(n / 16)
  }

  function FromNibbles(s: seq<nat>): nat {
    if s == [] then 0 else s[0] + 16 * FromNibbles(s[1..])
  }

  lemma {:induction false} NibblesRound(n: nat)
    ensures FromNibbles(Nibbles(n)) == n
  {
    if n >= 16 {
      NibblesRound(n / 16);
      assert Nibbles(n)[1..] == Nibbles(n / 16);
    } else {
      assert Nibbles(n)[1..] == [];
    }
  }

  function Pow16(k: nat): (r: nat)
    ensures r > 0
  {
    if k == 0 then 1 else 16 * Pow16(k - 1)
  }

  lemma {:induction false} NibblesCount(n: nat, k: nat)
    requires k > 0
    ensures |Nibbles(n)| <= k <==> n < Pow16(k)
  {
    if k == 1 {
      assert Pow16(1) == 16;
    } else if n >= 16 {
      NibblesCount(n / 16, k - 1);
      assert n / 16 < Pow16(k - 1) <==> n < 16 * Pow16(k - 1);
    } else {
      assert Pow16(k) >= 16;
    }
  }

  /** Two nibbles to a byte, the first in the upper half; an odd last one is padded with zero. */
  function Pack(s: seq<nat>): (b: seq<byte>)
    requires forall i :: 0 <= i < |s| ==> s[i] < 16
    ensures |b| == (|s| + 1) / 2
  {
    if s == [] then []
    else if |s| == 1 then [(s[0] * 16) as byte]
    else [(s[0] * 16 + s[1]) as byte] + Pack(s[2..])
  }

  /** The wire form of an integer: how many nibbles follow, less one, and the nibbles */
  function EncodeInt(n: nat): seq<byte>
    requires n < TWO64
  {
    NibblesFit(n);
    Pack([|Nibbles(n)| - 1] + Nibbles(n))
  }

  lemma NibblesFit(n: nat)
    ensures n < TWO32 ==> |Nibbles(n)| <= 8
    ensures n < TWO64 ==> |Nibbles(n)| <= 16
  {
    assert Pow16(4) == 0x10000;
    assert Pow16(8) == TWO32 by {
      assert Pow16(8) == 16 * 16 * 16 * 16 * Pow16(4);
    }
    assert Pow16(12) == 16 * 16 * 16 * 16 * Pow16(8);
    assert Pow16(16) == TWO64 by {
      assert Pow16(16) == 16 * 16 * 16 * 16 * Pow16(12);
    }
    NibblesCount(n, 8);
    NibblesCount(n, 16);
  }

  /** Nibble number k of a byte string, the upper half of a byte before the lower */
  function NibbleAt(b: seq<byte>, k: nat): nat
    requires k / 2 < |b|
  {
    if k % 2 == 0 then b[k / 2] as nat / 16 else b[k / 2] as nat % 16
  }

  lemma {:induction false} PackAt(s: seq<nat>, k: nat)
    requires (forall i :: 0 <= i < |s| ==> s[i] < 16) && k < |s|
    ensures NibbleAt(Pack(s), k) == s[k]
  {
    if k >= 2 {
      PackAt(s[2..], k - 2);
      assert Pack(s)[1..] == Pack(s[2..]);
    }
  }

  /** DECODE_INT_INTERNAL: the number and the length of its encoding, if the bytes begin with one of few enough
      nibbles */
  function DecodeInt(b: seq<byte>, maxNibbles: nat): Option<(nat, nat)> {
    if b == [] then None
    else
      var nibbles := b[0] as nat / 16 + 1;
      if nibbles > maxNibbles || nibbles / 2 + 1 > |b| then None
      else Some((Gathered(b, nibbles, 0), nibbles / 2 + 1))
  }

  /** The same for bytes in a buffer, whose number the code keeps in an ssize_t: there seem to be none when they are too
      many for that. */
  function DecodeIntIn(b: seq<byte>, maxNibbles: nat): Option<(nat, nat)> {
    if |b| > SSIZE_MAX then None else DecodeInt(b, maxNibbles)
  }

  /** The number made of nibbles k + 1 to n of the bytes */
  function Gathered(b: seq<byte>, n: nat, k: nat): nat
    requires n / 2 < |b|
    decreases n - k
  {
    if k >= n then 0 else NibbleAt(b, k + 1) + 16 * Gathered(b, n, k + 1)
  }

  lemma {:induction false} GatheredPacked(s: seq<nat>, rest: seq<byte>, k: nat)
    requires s != [] && (forall i :: 0 <= i < |s| ==> s[i] < 16) && k < |s|
    ensures Gathered(Pack(s) + rest, |s| - 1, k) == FromNibbles(s[k + 1..])
    decreases |s| - k
  {
    if k + 1 < |s| {
      GatheredPacked(s, rest, k + 1);
      PackAt(s, k + 1);
      assert s[k + 1..][1..] == s[k + 2..];
    }
  }

  /** Integers are self-delimiting: decoding an encoding with anything behind it gives back the number and its
      length. */
  lemma IntRound(n: nat, rest: seq<byte>, maxNibbles: nat)
    requires n < TWO64 && |Nibbles(n)| <= maxNibbles
    ensures DecodeInt(EncodeInt(n) + rest, maxNibbles) == Some((n, |EncodeInt(n)|))
  {
    NibblesFit(n);
    NibblesRound(n);
    hide Nibbles, Pack, Gathered, FromNibbles;
    var s := [|Nibbles(n)| - 1] + Nibbles(n);
    PackAt(s, 0);
    assert (Pack(s) + rest)[0] == Pack(s)[0];
    GatheredPacked(s, rest, 0);
    assert s[1..] == Nibbles(n);
  }

  lemma {:induction false} GatheredFits(b: seq<byte>, n: nat, k: nat)
    requires n / 2 < |b| && k <= n
    ensures Gathered(b, n, k) < Pow16(n - k)
    decreases n - k
  {
    if k < n {
      GatheredFits(b, n, k + 1);
    }
  }

  // ---- tags in groups of seven bits, the least significant first ----

  function EncodeTag(tag: nat): (b: seq<byte>)
    ensures b != []
  {
    if tag < 128 then [tag as byte] else [(tag % 128 + 128) as byte] + EncodeTag(tag / 128)
  }

  /** decode_tag_internal from byte i on: the part of the tag found there, and the length of the encoding. The fifth
      byte may add four bits, and there is no sixth. */
  function DecodeTagAt(b: seq<byte>, i: nat): Option<(nat, nat)>
    decreases |b| - i
  {
    if i >= |b| || i > 4 then None
    else
      var low := b[i] as nat % 128;
      if i == 4 && low > 15 then None
      else if b[i] < 128 then Some((low, i + 1))
      else
        match DecodeTagAt(b, i + 1)
        case None => None
        case Some(r) => Some((low + 128 * r.0, r.1))
  }

  function DecodeTag(b: seq<byte>): Option<(nat, nat)> {
    DecodeTagAt(b, 0)
  }

  /** The loop of decode_tag_internal does not stop at the five bytes it has made contiguous: it reads a sixth one
      behind them when there are more bytes and the five, of at most 32 bits so far, do not end the tag. */
  predicate ReadsSixth(b: seq<byte>) {
    |b| > 5 && (forall i :: 0 <= i < 5 ==> b[i] >= 128) && b[4] as nat % 128 <= 15
  }

  /** What the sixth byte holds makes no difference. */
  lemma SixthFails(b: seq<byte>)
    requires ReadsSixth(b)
    ensures DecodeTag(b) == None
  {
    assert DecodeTagAt(b, 5) == None;
    assert DecodeTagAt(b, 4) == None;
    assert DecodeTagAt(b, 3) == None;
    assert DecodeTagAt(b, 2) == None;
    assert DecodeTagAt(b, 1) == None;
  }

  /** 2^(7 * k) */
  function Pow128(k: nat): (r: nat)
    ensures r > 0
  {
    if k == 0 then 1 else 128 * Pow128(k - 1)
  }

  lemma {:induction false} TagRoundAt(before: seq<byte>, tag: nat, rest: seq<byte>)
    requires |before| <= 4 && tag < (if |before| == 4 then 16 else 16 * Pow128(4 - |before|))
    ensures DecodeTagAt(before + EncodeTag(tag) + rest, |before|) == Some((tag, |before| + |EncodeTag(tag)|))
    decreases tag
  {
    var b := before + EncodeTag(tag) + rest;
    assert b[|before|] == EncodeTag(tag)[0];
    if tag >= 128 {
      assert |before| < 4;
      var first := [(tag % 128 + 128) as byte];
      assert b == (before + first) + EncodeTag(tag / 128) + rest;
      assert 16 * Pow128(4 - |before|) == 128 * (16 * Pow128(3 - |before|));
      TagRoundAt(before + first, tag / 128, rest);
    }
  }

  /** Tags are self-delimiting. */
  lemma TagRound(tag: nat, rest: seq<byte>)
    requires tag < TWO32
    ensures DecodeTag(EncodeTag(tag) + rest) == Some((tag, |EncodeTag(tag)|)) && |EncodeTag(tag)| <= 5
  {
    assert 16 * Pow128(4) == TWO32;
    assert [] + EncodeTag(tag) + rest == EncodeTag(tag) + rest;
    TagRoundAt([], tag, rest);
    DecodeTagShort(EncodeTag(tag) + rest, 0);
  }

  lemma {:induction false} DecodeTagShort(b: seq<byte>, i: nat)
    ensures DecodeTagAt(b, i).Some? ==> i < DecodeTagAt(b, i).value.1 <= |b| && DecodeTagAt(b, i).value.1 <= 5
    ensures DecodeTagAt(b, i).Some? ==> DecodeTagAt(b, i).value.0 < (if i == 4 then 16 else 16 * Pow128(4 - i))
    decreases |b| - i
  {
    if i < |b| && i <= 4 {
      DecodeTagShort(b, i + 1);
      if i < 4 {
        assert 16 * Pow128(4 - i) == 128 * (16 * Pow128(3 - i));
        assert Pow128(0) == 1;
      }
    }
  }

  // ---- frames and streams ----

  datatype Frame = Frame(tag: nat, payload: seq<byte>) {
    /** A 32-bit tag, and a payload with a 32-bit length */
    predicate Ok() {
      tag < TWO32 && |payload| < TWO32
    }
  }

  /** evtag_marshal */
  function Marshalled(f: Frame): seq<byte>
    requires f.Ok()
  {
    EncodeTag(f.tag) + EncodeInt(|f.payload|) + f.payload
  }

  /** evtag_unmarshal_header: the tag and the length, if the bytes begin with them and hold a payload of that length,
      and the bytes that are left; nothing is taken off where the front is frozen. */
  function Header(b: seq<byte>, frozen: bool): (r: (Option<(nat, nat)>, seq<byte>))
    ensures r.0.Some? ==> r.0.value.1 <= |r.1| && r.0.value.1 < TWO32
    ensures r.0.Some? ==> |r.1| <= SSIZE_MAX && (!frozen ==> |r.1| < |b|)
  {
    DecodeTagShort(b, 0);
    match DecodeTag(b)
    case None => (None, b)
    case Some(t) =>
      var b1 := if frozen then b else b[t.1..];
      match DecodeIntIn(b1, 8)
      case None => (None, b1)
      case Some(n) =>
        IntFits(b1);
        var b2 := if frozen then b1 else b1[n.1..];
        if |b2| < n.0 then (None, b2) else (Some((t.0, n.0)), b2)
  }

  /** An integer of at most 8 nibbles has 32 bits. */
  lemma IntFits(b: seq<byte>)
    ensures DecodeInt(b, 8).Some? ==> DecodeInt(b, 8).value.0 < TWO32 && DecodeInt(b, 8).value.1 <= |b|
  {
    if DecodeInt(b, 8).Some? {
      var nibbles := b[0] as nat / 16 + 1;
      GatheredFits(b, nibbles, 0);
      Pow16Up(nibbles, 8);
      assert Pow16(4) == 0x10000;
      assert Pow16(8) == 16 * 16 * 16 * 16 * Pow16(4);
    }
  }

  lemma {:induction false} Pow16Up(a: nat, b: nat)
    requires a <= b
    ensures Pow16(a) <= Pow16(b)
  {
    if a < b {
      Pow16Up(a, b - 1);
    }
  }

  /** evtag_unmarshal: the frame the bytes begin with, and what is behind it. A payload longer than an int can say
      fails. */
  function Unmarshalled(b: seq<byte>): Option<(Frame, seq<byte>)> {
    match Header(b, false)
    case (None, _) => None
    case (Some(h), rest) => if h.1 > INT_MAX then None else Some((Frame(h.0, rest[..h.1]), rest[h.1..]))
  }

  /** An ssize_t can hold the number of bytes from the length of the frame on. */
  predicate Counted(f: Frame, rest: seq<byte>)
    requires f.Ok()
  {
    |EncodeInt(|f.payload|) + f.payload + rest| <= SSIZE_MAX
  }

  lemma HeaderRound(f: Frame, rest: seq<byte>)
    requires f.Ok()
    ensures Header(Marshalled(f) + rest, false) ==
        if Counted(f, rest) then (Some((f.tag, |f.payload|)), f.payload + rest)
        else (None, EncodeInt(|f.payload|) + f.payload + rest)
  {
    var t, n := EncodeTag(f.tag), EncodeInt(|f.payload|);
    var b := Marshalled(f) + rest;
    assert b == t + (n + f.payload + rest);
    TagRound(f.tag, n + f.payload + rest);
    assert b[|t|..] == n + (f.payload + rest);
    NibblesFit(|f.payload|);
    IntRound(|f.payload|, f.payload + rest, 8);
    assert b[|t|..][|n|..] == f.payload + rest;
  }

  /** What is marshalled can be unmarshalled again exactly when an int can hold the length of the payload, and an
      ssize_t that of all bytes from there on. */
  lemma FrameRound(f: Frame, rest: seq<byte>)
    requires f.Ok()
    ensures Unmarshalled(Marshalled(f) + rest) ==
        if |f.payload| <= INT_MAX && Counted(f, rest) then Some((f, rest)) else None
  {
    HeaderRound(f, rest);
    assert (f.payload + rest)[..|f.payload|] == f.payload && (f.payload + rest)[|f.payload|..] == rest;
  }

  /** So it is for a payload of 2^31 bytes, and for an empty one with SSIZE_MAX bytes behind it. */
  lemma FrameLost()
    ensures var f := Frame(0, seq(INT_MAX + 1, _ => 0)); f.Ok() && Unmarshalled(Marshalled(f)) == None
    ensures Unmarshalled(Marshalled(Frame(0, [])) + seq(SSIZE_MAX, _ => 0)) == None
  {
    var f := Frame(0, seq(INT_MAX + 1, _ => 0));
    assert Marshalled(f) + [] == Marshalled(f);
    FrameRound(f, []);
    FrameRound(Frame(0, []), seq(SSIZE_MAX, _ => 0));
    PackAt([0, 0], 0);
  }

  ghost function Stream(frames: seq<Frame>): seq<byte>
    requires forall i :: 0 <= i < |frames| ==> frames[i].Ok()
  {
    if frames == [] then [] else Marshalled(frames[0]) + Stream(frames[1..])
  }

  /** The frames of a byte string, up to the end or to the first that is malformed */
  function Frames(b: seq<byte>): seq<Frame>
    decreases |b|
  {
    UnmarshalledShorter(b);
    match Unmarshalled(b)
    case None => []
    case Some(r) => [r.0] + Frames(r.1)
  }

  lemma UnmarshalledShorter(b: seq<byte>)
    ensures Unmarshalled(b).Some? ==> |Unmarshalled(b).value.1| < |b|
  {
  }

  /** Unmarshalling a stream of marshalled frames gives back these frames exactly when an int can hold the length of
      each payload, and an ssize_t the number of bytes behind the first tag. */
  lemma {:induction false} StreamRound(frames: seq<Frame>)
    requires forall i :: 0 <= i < |frames| ==> frames[i].Ok()
    ensures Frames(Stream(frames)) == frames <==>
        && (forall i :: 0 <= i < |frames| ==> |frames[i].payload| <= INT_MAX)
        && (frames != [] ==> Counted(frames[0], Stream(frames[1..])))
  {
    if frames != [] {
      var first, rest := frames[0], frames[1..];
      FrameRound(first, Stream(rest));
      StreamRound(rest);
      assert frames == [first] + rest;
      hide Marshalled, Unmarshalled, EncodeInt;
      if Counted(first, Stream(rest)) && rest != [] {
        LaterCounted(first, rest);
      }
    } else {
      assert Unmarshalled([]) == None;
    }
  }

  lemma LaterCounted(f: Frame, rest: seq<Frame>)
    requires f.Ok() && rest != [] && forall i :: 0 <= i < |rest| ==> rest[i].Ok()
    requires Counted(f, Stream(rest))
    ensures Counted(rest[0], Stream(rest[1..]))
  {
    hide EncodeInt;
  }
}
