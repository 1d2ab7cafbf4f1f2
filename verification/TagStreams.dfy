/** The codec of tagged streams as it works on buffers. */
module TagStreams {
  import opened Bytes
  import opened Blocks
  import opened ChainLists
  import opened EvBuffers
  import opened Tagging

  // ---- building an encoding in a small array ----

  lemma {:induction false} PackedIs(b: seq<byte>, s: seq<nat>)
    requires (forall i :: 0 <= i < |s| ==> s[i] < 16) && |b| == (|s| + 1) / 2
    requires forall k :: 0 <= k < |s| ==> NibbleAt(b, k) == s[k]
    requires |s| % 2 == 1 ==> NibbleAt(b, |s|) == 0
    ensures b == Pack(s)
  {
    if |s| >= 2 {
      assert NibbleAt(b, 0) == s[0] && NibbleAt(b, 1) == s[1];
      assert b[0] as nat == s[0] * 16 + s[1];
      forall k | 0 <= k < |s[2..]|
        ensures NibbleAt(b[1..], k) == s[2..][k]
      {
        assert NibbleAt(b, k + 2) == s[k + 2];
        assert (k + 2) / 2 == k / 2 + 1 && (k + 2) % 2 == k % 2;
      }
      if |s| % 2 == 1 {
        assert NibbleAt(b, |s|) == 0;
        assert NibbleAt(b[1..], |s[2..]|) == 0;
      }
      PackedIs(b[1..], s[2..]);
      assert b == [b[0]] + b[1..];
    } else if |s| == 1 {
      assert NibbleAt(b, 0) == s[0] && NibbleAt(b, 1) == 0;
      assert b[0] as nat == s[0] * 16;
    }
  }

  lemma PackedPrefix(all: seq<byte>, len: nat, s: seq<nat>)
    requires (forall i :: 0 <= i < |s| ==> s[i] < 16) && len == (|s| + 1) / 2 <= |all|
    requires forall k :: 0 <= k < |s| ==> NibbleAt(all, k) == s[k]
    requires |s| % 2 == 1 ==> NibbleAt(all, |s|) == 0
    ensures all[..len] == Pack(s)
  {
    assert forall k :: 0 <= k < |s| ==> NibbleAt(all[..len], k) == NibbleAt(all, k);
    PackedIs(all[..len], s);
  }

  /** Write nibble number k of the array, and leave the other half of its byte alone. */
  method PutNibble(data: array<byte>, k: nat, nibble: nat)
    requires k / 2 < data.Length && nibble < 16
    modifies data
    ensures forall j :: 0 <= j < 2 * data.Length ==>
        NibbleAt(data[..], j) == if j == k then nibble else old(NibbleAt(data[..], j))
  {
    var x := data[k / 2] as nat;
    var y := if k % 2 == 1 then x / 16 * 16 + nibble else x % 16 + nibble * 16;
    assert y / 16 == if k % 2 == 1 then x / 16 else nibble;
    assert y % 16 == if k % 2 == 1 then nibble else x % 16;
    data[k / 2] := y as byte;
    forall j | 0 <= j < 2 * data.Length
      ensures NibbleAt(data[..], j) == if j == k then nibble else old(NibbleAt(data[..], j))
    {
      if j / 2 == k / 2 {
        assert j == k || j % 2 != k % 2;
      } else {
        assert data[j / 2] == old(data[j / 2]);
      }
    }
  }

  /** ENCODE_INT_INTERNAL */
  method EncodeIntInternal(data: array<byte>, value: nat) returns (len: nat)
    requires value < TWO64 && data.Length > (if value < TWO32 then 4 else 8)
    modifies data
    ensures len <= data.Length && data[..len] == EncodeInt(value)
  {
    forall i | 0 <= i < data.Length {
      data[i] := 0;
    }
    var off, nibbles, number := 1, 0, value;
    ghost var s := Nibbles(value);
    NibblesFit(value);
    assert Written(data[..], s, 1) && Left(value, s, 1);
    hide Written, Left, Nibbles, EncodeInt, Pack;
    while number > 0
      invariant 1 <= off <= |s| + 1 && Left(number, s, off) && Written(data[..], s, off)
      decreases number
    {
      LeftStep(number, s, off);
      PutNext(data, off, number % 16, s);
      number := number / 16;
      off := off + 1;
    }
    NoneLeft(s, off);
    if off > 2 {
      nibbles := off - 2;
    }
    PutCount(data, off, nibbles, s);
    len := (off + 1) / 2;
  }

  /** The nibbles of number are those of s that are still to be written. */
  ghost predicate Left(number: nat, s: seq<nat>, off: nat) {
    if number > 0 then 1 <= off <= |s| && Nibbles(number) == s[off - 1..] else (s == [0] && off == 1) || off == |s| + 1
  }

  lemma LeftStep(number: nat, s: seq<nat>, off: nat)
    requires Left(number, s, off) && number > 0
    ensures 1 <= off <= |s| && s[off - 1] == number % 16 && Left(number / 16, s, off + 1)
  {
    assert s[off - 1..][0] == s[off - 1] && s[off - 1..][1..] == s[off..];
  }

  lemma NoneLeft(s: seq<nat>, off: nat)
    requires Left(0, s, off)
    ensures if off == 1 then s == [0] || s == [] else off == |s| + 1
  {
  }

  /** Nibbles 1 to off - 1 are the first ones of s, and the rest are clear. */
  ghost predicate Written(all: seq<byte>, s: seq<nat>, off: nat) {
    && 1 <= off <= |s| + 1
    && (forall j :: 1 <= j < off && j < 2 * |all| ==> NibbleAt(all, j) == s[j - 1])
    && (forall j :: 0 <= j < 2 * |all| && (j == 0 || j >= off) ==> NibbleAt(all, j) == 0)
  }

  method PutNext(data: array<byte>, off: nat, nibble: nat, ghost s: seq<nat>)
    requires Written(data[..], s, off) && off <= |s| && off < 2 * data.Length && nibble < 16 && s[off - 1] == nibble
    modifies data
    ensures Written(data[..], s, off + 1)
  {
    PutNibble(data, off, nibble);
  }

  /** The nibble that tells how many follow it */
  method PutCount(data: array<byte>, off: nat, nibbles: nat, ghost s: seq<nat>)
    requires 0 < |s| <= 16 && off <= 2 * data.Length && |s| + 1 <= 2 * data.Length
    requires nibbles == |s| - 1 && if off == 1 then s == [0] else off == |s| + 1
    requires forall i :: 0 <= i < |s| ==> s[i] < 16
    requires Written(data[..], s, off)
    modifies data
    ensures (off + 1) / 2 <= data.Length && data[..(off + 1) / 2] == Pack([|s| - 1] + s)
  {
    PutNibble(data, 0, nibbles);
    var len := (off + 1) / 2;
    PackedPrefix(data[..], len, [|s| - 1] + s);
    assert data[..][..len] == data[..len];
  }

  lemma {:induction false} TagByte(sofar: seq<byte>, tag: nat)
    ensures |sofar + EncodeTag(tag)| > |sofar|
    ensures sofar + EncodeTag(tag) == if tag >= 128 then sofar + [(tag % 128 + 128) as byte] + EncodeTag(tag / 128)
                                      else sofar + [(tag % 128) as byte]
  {
    if tag >= 128 {
      var first, rest := [(tag % 128 + 128) as byte], EncodeTag(tag / 128);
      assert EncodeTag(tag) == first + rest;
      hide EncodeTag;
      assert sofar + (first + rest) == sofar + first + rest;
    }
  }

  /** The loop of evtag_encode_tag */
  method EncodeTagInternal(data: array<byte>, value: nat) returns (bytes: nat)
    requires value < TWO32 && data.Length == 5
    modifies data
    ensures bytes <= data.Length && data[..bytes] == EncodeTag(value)
  {
    TagRound(value, []);
    hide EncodeTag;
    bytes := 0;
    var tag, done := value, false;
    while !done
      invariant bytes <= 5 && (!done ==> data[..bytes] + EncodeTag(tag) == EncodeTag(value))
      invariant done ==> data[..bytes] == EncodeTag(value)
      decreases !done, tag
    {
      ghost var sofar := data[..bytes];
      TagByte(sofar, tag);
      var lower := tag % 128;
      tag := tag / 128;
      if tag != 0 {
        lower := lower + 128;
      }
      data[bytes] := lower as byte;
      bytes := bytes + 1;
      assert data[..bytes] == sofar + [lower as byte];
      done := tag == 0;
    }
  }

  method IntBytes(number: nat) returns (b: seq<byte>)
    requires number < TWO32
    ensures b == EncodeInt(number)
  {
    var data := new byte[5];
    var len := EncodeIntInternal(data, number);
    b := data[..len];
  }

  method TagBytes(tag: nat) returns (b: seq<byte>)
    requires tag < TWO32
    ensures b == EncodeTag(tag)
  {
    var data := new byte[5];
    var n := EncodeTagInternal(data, tag);
    b := data[..n];
  }

  // ---- writing to a buffer ----

  /** A buffer's bytes after evbuffer_add, whose result is not looked at: all of d is behind them, or nothing of it. */
  ghost function Taken(c: seq<byte>, d: seq<byte>, frozen: bool): seq<byte> {
    if frozen || |c| + |d| > SIZE_MAX then c else c + d
  }

  ghost function TakenThree(c: seq<byte>, x: seq<byte>, y: seq<byte>, z: seq<byte>, frozen: bool): seq<byte> {
    Taken(Taken(Taken(c, x, frozen), y, frozen), z, frozen)
  }

  method AddThree(buf: EvBuffer, x: seq<byte>, y: seq<byte>, z: seq<byte>)
    requires buf.Valid()
    modifies buf.Footprint()
    ensures buf.Valid() && buf.freezeStart == old(buf.freezeStart) && buf.freezeEnd == old(buf.freezeEnd)
    ensures buf.Contents() == TakenThree(old(buf.Contents()), x, y, z, old(buf.freezeEnd))
  {
    hide Linked, Separate, Shows, Flatten, LastBlock, EvBuffer.Core;
    buf.CoreLength();
    var r := buf.Add(x);
    buf.CoreLength();
    r := buf.Add(y);
    buf.CoreLength();
    r := buf.Add(z);
  }

  lemma TakenWhole(c: seq<byte>, x: seq<byte>, y: seq<byte>, z: seq<byte>, frozen: bool)
    requires x != [] && y != []
    ensures TakenThree(c, x, y, z, frozen) == c + (x + y + z) <==> !frozen && |c| + |x + y + z| <= SIZE_MAX
  {
    assert c + (x + y + z) == c + x + y + z;
  }

  /** evtag_marshal: the whole frame is added exactly when the buffer takes additions and has room by its counter. */
  method Marshal(buf: EvBuffer, f: Frame)
    requires buf.Valid() && f.Ok()
    modifies buf.Footprint()
    ensures buf.Valid() && buf.freezeStart == old(buf.freezeStart) && buf.freezeEnd == old(buf.freezeEnd)
    ensures buf.Contents() == TakenThree(old(buf.Contents()), EncodeTag(f.tag), EncodeInt(|f.payload|), f.payload,
        old(buf.freezeEnd))
    ensures buf.Contents() == old(buf.Contents()) + Marshalled(f)
            <==> !old(buf.freezeEnd) && |old(buf.Contents())| + |Marshalled(f)| <= SIZE_MAX
  {
    hide Linked, Separate, Shows, Flatten, LastBlock, EvBuffer.Core, EncodeTag, EncodeInt;
    Allocated(buf.chains);
    var t := TagBytes(f.tag);
    var n := IntBytes(|f.payload|);
    IntNotEmpty(|f.payload|);
    TakenWhole(buf.Contents(), t, n, f.payload, buf.freezeEnd);
    AddThree(buf, t, n, f.payload);
  }

  lemma IntNotEmpty(n: nat)
    requires n < TWO64
    ensures EncodeInt(n) != []
  {
  }

  // ---- reading from a buffer ----

  lemma FirstBlock(views: seq<seq<byte>>, n: nat)
    requires views != [] && n <= |views[0]|
    ensures n <= |Flatten(views)| && Flatten(views)[..n] == views[0][0..n]
  {
  }

  /** The first n bytes, made contiguous by evbuffer_pullup */
  method Head(buf: EvBuffer, n: nat) returns (data: Option<seq<byte>>)
    requires buf.Valid() && n <= SSIZE_MAX
    modifies buf.Footprint()
    ensures buf.Valid() && buf.Contents() == old(buf.Contents()) && buf.freezeStart == old(buf.freezeStart)
    ensures data.None? <==> n == 0 || n > |buf.Contents()|
    ensures data.Some? ==> n <= |buf.Contents()| && data.value == buf.Contents()[..n]
    ensures forall c :: c in buf.chains && c !in old(buf.chains) ==> fresh(c) && fresh(c.buffer)
  {
    hide Linked, Separate, Shows, Flatten, LastBlock, EvBuffer.Core;
    buf.CoreLength();
    var c := buf.Pullup(n);
    buf.CoreLength();
    if c == null {
      return None;
    }
    buf.CoreAt(0);
    FirstBlock(buf.views, n);
    data := Some(c.Read(0, n));
  }

  /** The loop of decode_tag_internal over the contiguous head of a buffer of the given length; sixth says whether it
      reads the byte behind the head. */
  method ScanTag(data: seq<byte>, len: nat, ghost all: seq<byte>) returns (r: int, number: nat, sixth: bool)
    requires |all| == len && data == all[..if len < 5 then len else 5]
    ensures if DecodeTag(all).None? then r == -1 else (number, r) == DecodeTag(all).value
    ensures sixth <==> ReadsSixth(all)
  {
    number, sixth := 0, false;
    var count, shift, done := 0, 0, false;
    hide DecodeTag, DecodeTagAt, Shifted, Pow128, Weighted;
    TagStart(all);
    while !done && count < len
      invariant count <= len && count <= 5 && shift == 7 * count
      invariant !done ==> DecodeTag(all) == Shifted(DecodeTagAt(all, count), number, Pow128(count))
      invariant done ==> DecodeTag(all) == Some((number, count))
      invariant if done then exists i :: 0 <= i < count && all[i] < 128
                else forall i :: 0 <= i < count ==> all[i] >= 128
      invariant count == 5 ==> all[4] as nat % 128 <= 15
      decreases len - count, !done
    {
      if shift > 28 {
        TagEnd(all, count, number);
        return -1, 0, true;
      }
      var lower := data[count] as nat;
      assert data[count] == all[count];
      TagStep(all, count, number);
      if shift >= 28 && lower % 128 > 15 {
        return -1, 0, false;
      }
      number := number + Weighted(count, lower % 128);
      count := count + 1;
      shift := shift + 7;
      done := lower < 128;
    }
    if !done {
      TagEnd(all, count, number);
    }
    r := if done then count else -1;
  }

  lemma TagStart(all: seq<byte>)
    ensures DecodeTag(all) == Shifted(DecodeTagAt(all, 0), 0, Pow128(0))
  {
  }

  lemma TagEnd(all: seq<byte>, count: nat, number: nat)
    requires count >= |all| || count > 4
    ensures Shifted(DecodeTagAt(all, count), number, Pow128(count)) == None
  {
  }

  lemma TagStep(all: seq<byte>, count: nat, number: nat)
    requires count < |all| && count <= 4
    ensures var low := all[count] as nat % 128;
            Shifted(DecodeTagAt(all, count), number, Pow128(count)) ==
            if count == 4 && low > 15 then None
            else if all[count] < 128 then Some((number + Weighted(count, low), count + 1))
            else Shifted(DecodeTagAt(all, count + 1), number + Weighted(count, low), Pow128(count + 1))
  {
    var low, rest := all[count] as nat % 128, DecodeTagAt(all, count + 1);
    if rest.Some? {
      assert Pow128(count) * (low + 128 * rest.value.0) == Pow128(count) * low + 128 * Pow128(count) * rest.value.0;
    }
  }

  /** The 7 bits low, shifted into place number count */
  function Weighted(count: nat, low: nat): nat {
    Pow128(count) * low
  }

  /** A decoded rest of a tag behind the lower bits already gathered */
  function Shifted(rest: Option<(nat, nat)>, number: nat, weight: nat): Option<(nat, nat)> {
    match rest
    case None => None
    case Some(r) => Some((number + weight * r.0, r.1))
  }

  /** A buffer of two referenced blocks of memory for which the sixth byte that is read lies outside the first block, at
      which the loop looks. */
  method SixthOutside() returns (buf: EvBuffer)
    ensures fresh(buf) && buf.Valid() && ReadsSixth(buf.Contents())
    ensures buf.chains != [] && var c := buf.chains[0]; c.off == 5 == c.buffer.Length && c.misalign == 0
  {
    var five, one := new byte[5](_ => 128), new byte[1](_ => 0);
    SixBytes(five[..], one[..]);
    buf := TwoReferences(five, one);
  }

  lemma SixBytes(a: seq<byte>, b: seq<byte>)
    requires |a| == 5 && |b| == 1 && forall i :: 0 <= i < 5 ==> a[i] == 128
    ensures ReadsSixth(a + b)
  {
  }

  method TwoReferences(five: array<byte>, one: array<byte>) returns (buf: EvBuffer)
    requires five.Length == 5 && one.Length == 1
    ensures fresh(buf) && buf.Valid() && buf.Contents() == five[..] + one[..]
    ensures buf.chains != [] && var c := buf.chains[0]; c.off == 5 && c.buffer == five && c.misalign == 0
  {
    buf := new EvBuffer();
    hide Linked, Separate, Shows, Flatten, LastBlock, EvBuffer.Core, Wrap;
    var r := buf.AddReference(five);
    ghost var c := buf.chains[0];
    assert buf.chains == [c] && c.buffer == five && buf.Contents() == five[..];
    r := buf.AddReference(one);
    OneAfter(buf, c, five[..] + one[..]);
  }

  /** Six bytes in at most two blocks, of which the last has one: the first has five. */
  lemma OneAfter(buf: EvBuffer, c: Chain, all: seq<byte>)
    requires buf.Core() && buf.Contents() == all && |all| == 6 && 0 < |buf.chains| <= 2 && c.immutable
    requires |buf.views| == |buf.chains| && |buf.views[|buf.chains| - 1]| == 1
    requires |buf.chains| == 2 ==> buf.chains[0] == c && c.buffer.Length == 5
    ensures |buf.chains| == 2 && c.off == 5 && c.misalign == 0
  {
    hide Linked, Separate, Shows, LastBlock, EvBuffer.Core, Flatten;
    buf.CoreAt(0);
    FewBlocks(buf.views);
  }

  lemma FewBlocks(views: seq<seq<byte>>)
    requires 0 < |views| <= 2
    ensures Flatten(views) == if |views| == 1 then views[0] else views[0] + views[1]
  {
    if |views| == 2 {
      assert views == [views[0]] + [views[1]];
    }
  }

  /** decode_tag_internal, which evtag_decode_tag calls to drain the tag and evtag_peek to leave it; sixth says whether
      it reads a byte more than it has made contiguous. */
  method DecodeTagInternal(buf: EvBuffer, dodrain: bool) returns (r: int, tag: nat, sixth: bool)
    requires buf.Valid()
    modifies buf.Footprint()
    ensures buf.Valid() && buf.freezeStart == old(buf.freezeStart)
    ensures var t := DecodeTag(old(buf.Contents()));
            if t.None? then r == -1 && buf.Contents() == old(buf.Contents())
            else (tag, r) == t.value && r <= |old(buf.Contents())| &&
                 buf.Contents() == if dodrain && !old(buf.freezeStart) then old(buf.Contents())[r..]
                     else old(buf.Contents())
    ensures sixth <==> ReadsSixth(old(buf.Contents()))
    ensures forall c :: c in buf.chains && c !in old(buf.chains) ==> fresh(c) && fresh(c.buffer)
  {
    hide Linked, Separate, Shows, Flatten, LastBlock, EvBuffer.Core;
    buf.CoreLength();
    var len := buf.totalLen;
    ghost var all := buf.Contents();
    DecodeTagShort(all, 0);
    var head := Head(buf, if len < 5 then len else 5);
    if head.None? {
      TagEnd(all, 0, 0);
      TagStart(all);
      return -1, 0, false;
    }
    Allocated(buf.chains);
    r, tag, sixth := ScanTag(head.value, len, all);
    if r != -1 && dodrain {
      assert r == |all| ==> all[r..] == [];
      buf.CoreLength();
      var d := buf.Drain(r);
    }
  }

  lemma {:induction false} GatheredPrefix(b: seq<byte>, all: seq<byte>, n: nat, k: nat)
    requires n / 2 < |b| <= |all| && b == all[..|b|]
    ensures Gathered(b, n, k) == Gathered(all, n, k)
    decreases n - k
  {
    if k < n {
      GatheredPrefix(b, all, n, k + 1);
      assert b[(k + 1) / 2] == all[(k + 1) / 2];
    }
  }

  /** The loop of DECODE_INT_INTERNAL, from the most significant nibble */
  method GatherNibbles(data: seq<byte>, n: nat) returns (number: nat)
    requires n / 2 < |data|
    ensures number == Gathered(data, n, 0)
  {
    number := 0;
    var nibbles := n;
    while nibbles > 0
      invariant 0 <= nibbles <= n && number == Gathered(data, n, nibbles)
    {
      number := number * 16 + if nibbles % 2 == 1 then data[nibbles / 2] as nat % 16 else data[nibbles / 2] as nat / 16;
      nibbles := nibbles - 1;
    }
  }

  /** A length in an ssize_t is above zero exactly when there are bytes left and not too many. */
  lemma LengthLeft(n: nat, offset: nat)
    requires n <= SIZE_MAX && offset <= INT_MAX
    ensures var len := ToSsize(Wrap(n - offset));
            if 0 < n - offset <= SSIZE_MAX then len == n - offset else len <= 0
  {
  }

  /** decode_int_internal and decode_int64_internal: the integer at an offset, which stays in the buffer */
  method DecodeIntInternal(buf: EvBuffer, offset: nat, maxNibbles: nat) returns (r: int, number: nat)
    requires buf.Valid() && offset <= INT_MAX
    modifies buf.Footprint()
    ensures buf.Valid() && buf.Contents() == old(buf.Contents()) && buf.freezeStart == old(buf.freezeStart)
    ensures var n := DecodeIntIn(DropBytes(old(buf.Contents()), offset), maxNibbles);
            if n.None? then r == -1 else (number, r) == n.value
    ensures forall c :: c in buf.chains && c !in old(buf.chains) ==> fresh(c) && fresh(c.buffer)
  {
    hide Linked, Separate, Shows, Flatten, LastBlock, EvBuffer.Core, Gathered;
    buf.CoreLength();
    ghost var all := buf.Contents();
    var len := ToSsize(Wrap(buf.totalLen - offset));
    LengthLeft(buf.totalLen, offset);
    if len <= 0 {
      return -1, 0;
    }
    ghost var rest := all[offset..];
    var head := Head(buf, offset + 1);
    assert head.value[offset] == rest[0];
    var nibbles := head.value[offset] as nat / 16 + 1;
    if nibbles > maxNibbles || nibbles / 2 + 1 > len {
      return -1, 0;
    }
    len := nibbles / 2 + 1;
    head := Head(buf, offset + len);
    ghost var b := head.value[offset..];
    assert b == rest[..len];
    GatheredPrefix(b, rest, nibbles, 0);
    Allocated(buf.chains);
    number := GatherNibbles(head.value[offset..], nibbles);
    r := len;
  }

  /** evtag_decode_int */
  method DecodeIntFrom(buf: EvBuffer) returns (r: int, number: nat)
    requires buf.Valid()
    modifies buf.Footprint()
    ensures buf.Valid() && buf.freezeStart == old(buf.freezeStart)
    ensures var n := DecodeIntIn(old(buf.Contents()), 8);
            if n.None? then r == -1 && buf.Contents() == old(buf.Contents())
            else r == 0 && number == n.value.0 && n.value.1 <= |old(buf.Contents())| &&
                 buf.Contents() == if old(buf.freezeStart) then old(buf.Contents())
                     else old(buf.Contents())[n.value.1..]
    ensures forall c :: c in buf.chains && c !in old(buf.chains) ==> fresh(c) && fresh(c.buffer)
  {
    hide Linked, Separate, Shows, Flatten, LastBlock, EvBuffer.Core;
    buf.CoreLength();
    ghost var all := buf.Contents();
    assert DropBytes(all, 0) == all;
    r, number := DecodeIntInternal(buf, 0, 8);
    if r != -1 {
      assert r == |all| ==> all[r..] == [];
      buf.CoreLength();
      var d := buf.Drain(r);
      r := 0;
    }
  }

  /** evtag_unmarshal_header: the length of the payload, which is then next in the buffer, as an int */
  method UnmarshalHeader(buf: EvBuffer) returns (r: int, tag: nat)
    requires buf.Valid()
    modifies buf.Footprint()
    ensures buf.Valid() && buf.freezeStart == old(buf.freezeStart)
    ensures var (h, rest) := Header(old(buf.Contents()), old(buf.freezeStart));
            buf.Contents() == rest && if h.None? then r == -1 else tag == h.value.0 && r == ToInt(h.value.1)
    ensures forall c :: c in buf.chains && c !in old(buf.chains) ==> fresh(c) && fresh(c.buffer)
  {
    hide Linked, Separate, Shows, Flatten, LastBlock, EvBuffer.Core, DecodeTag, DecodeIntIn;
    var sixth;
    r, tag, sixth := DecodeTagInternal(buf, true);
    if r == -1 {
      return;
    }
    var len;
    r, len := DecodeIntFrom(buf);
    if r == -1 {
      return;
    }
    buf.CoreLength();
    if buf.totalLen < len {
      return -1, tag;
    }
    r := ToInt(len);
  }

  /** Changing one buffer leaves another that shares no chain with it alone. */
  lemma Independent(a: EvBuffer, b: EvBuffer)
    requires a != b && a.Unshared(b)
    ensures b !in a.Footprint() && (forall c :: c in b.chains ==> c !in a.Footprint())
    ensures forall o :: o in BuffersOf(b.chains) ==> o !in a.Footprint()
    ensures b.Unshared(a)
  {
  }

  /** The header of the next frame is read from one buffer while another stays as it is. */
  method HeaderOf(src: EvBuffer, ghost dst: EvBuffer) returns (r: int, tag: nat)
    requires src.Valid() && dst.Valid() && src != dst && src.Unshared(dst)
    modifies src.Footprint()
    ensures src.Valid() && dst.Valid() && src.Unshared(dst)
    ensures dst.chains == old(dst.chains) && dst.Contents() == old(dst.Contents())
    ensures dst.freezeEnd == old(dst.freezeEnd)
    ensures forall c :: c in src.chains && c !in old(src.chains) ==> fresh(c) && fresh(c.buffer)
    ensures src.freezeStart == old(src.freezeStart)
    ensures var (h, rest) := Header(old(src.Contents()), old(src.freezeStart));
            src.Contents() == rest && if h.None? then r == -1 else tag == h.value.0 && r == ToInt(h.value.1)
  {
    hide Linked, Separate, Shows, Flatten, LastBlock, EvBuffer.Core, Own;
    Independent(src, dst);
    Allocated(dst.chains);
    r, tag := UnmarshalHeader(src);
  }

  /** What evtag_unmarshal copies: the pulled up payload, or nothing when that is empty */
  method PayloadOf(src: EvBuffer, ghost dst: EvBuffer, n: nat) returns (data: seq<byte>)
    requires src.Valid() && dst.Valid() && src != dst && src.Unshared(dst) && n <= |src.Contents()| && n <= SSIZE_MAX
    modifies src.Footprint()
    ensures src.Valid() && dst.Valid() && src.Unshared(dst)
    ensures dst.chains == old(dst.chains) && dst.Contents() == old(dst.Contents())
    ensures dst.freezeEnd == old(dst.freezeEnd)
    ensures forall c :: c in src.chains && c !in old(src.chains) ==> fresh(c) && fresh(c.buffer)
    ensures src.Contents() == old(src.Contents()) && data == src.Contents()[..n]
    ensures src.freezeStart == old(src.freezeStart)
  {
    hide Linked, Separate, Shows, Flatten, LastBlock, EvBuffer.Core, Own;
    Independent(src, dst);
    Allocated(dst.chains);
    var head := Head(src, n);
    data := if head.Some? then head.value else [];
  }

  method AddTo(dst: EvBuffer, ghost src: EvBuffer, data: seq<byte>) returns (r: int)
    requires src.Valid() && dst.Valid() && src != dst && src.Unshared(dst)
    modifies dst.Footprint()
    ensures src.Valid() && dst.Valid() && src.Unshared(dst)
    ensures src.chains == old(src.chains) && src.Contents() == old(src.Contents())
    ensures src.freezeStart == old(src.freezeStart)
    ensures r == if old(dst.freezeEnd) || |old(dst.Contents())| + |data| > SIZE_MAX then -1 else 0
    ensures dst.Contents() == if r == 0 then old(dst.Contents()) + data else old(dst.Contents())
  {
    hide Linked, Separate, Shows, Flatten, LastBlock, EvBuffer.Core, Own;
    Independent(src, dst);
    Independent(dst, src);
    Allocated(src.chains);
    dst.CoreLength();
    r := dst.Add(data);
  }

  method DrainFrom(src: EvBuffer, ghost dst: EvBuffer, n: nat)
    requires src.Valid() && dst.Valid() && src != dst && src.Unshared(dst) && n <= |src.Contents()|
    modifies src.Footprint()
    ensures src.Valid() && dst.Valid() && src.Unshared(dst)
    ensures dst.chains == old(dst.chains) && dst.Contents() == old(dst.Contents())
    ensures src.Contents() == if old(src.freezeStart) then old(src.Contents()) else old(src.Contents())[n..]
  {
    hide Linked, Separate, Shows, Flatten, LastBlock, EvBuffer.Core, Own;
    Independent(src, dst);
    Allocated(dst.chains);
    ghost var all := src.Contents();
    assert n == |all| ==> all[n..] == [];
    Whole(src);
    var r := src.Drain(n);
  }

  /** evtag_unmarshal: the payload of the next frame moves to the other buffer. */
  method Unmarshal(src: EvBuffer, dst: EvBuffer) returns (r: int, tag: nat)
    requires src.Valid() && dst.Valid() && src != dst && src.Unshared(dst)
    modifies src.Footprint(), dst.Footprint()
    ensures src.Valid() && dst.Valid() && src.Unshared(dst)
    ensures var (h, rest) := Header(old(src.Contents()), old(src.freezeStart));
            if h.None? || h.value.1 > INT_MAX || old(dst.freezeEnd) || |old(dst.Contents())| + h.value.1 > SIZE_MAX
            then r == -1 && dst.Contents() == old(dst.Contents()) && src.Contents() == rest
            else r == h.value.1 && tag == h.value.0
                 && dst.Contents() == old(dst.Contents()) + rest[..h.value.1]
                 && src.Contents() == if old(src.freezeStart) then rest else rest[h.value.1..]
  {
    hide Linked, Separate, Shows, Flatten, LastBlock, EvBuffer.Core, EvBuffer.Valid, EvBuffer.Unshared, Header;
    r, tag := HeaderOf(src, dst);
    if r == -1 {
      return;
    }
    if r < 0 {
      // a length beyond INT_MAX: all is pulled up, and evbuffer_add refuses so many bytes
      Whole(src);
      var _ := PayloadOf(src, dst, src.totalLen);
      return -1, tag;
    }
    var n: nat := r;
    var data := PayloadOf(src, dst, n);
    var added := AddTo(dst, src, data);
    if added == -1 {
      return -1, tag;
    }
    DrainFrom(src, dst, n);
  }

  lemma Whole(buf: EvBuffer)
    requires buf.Valid()
    ensures buf.totalLen == |buf.Contents()|
  {
    buf.CoreLength();
  }
}
