/** Byte blocks, as an evbuffer's chains hold them one after the other. */
module Blocks {
  import opened Bytes

  /** Block number k is the last one with data, or k is 0 when none has data. */
  ghost predicate LastBlock(views: seq<seq<byte>>, k: nat) {
    && (k == 0 || (k < |views| && views[k] != []))
    && (forall i :: k < i < |views| ==> views[i] == [])
  }

  lemma LastBlockGrows(views: seq<seq<byte>>, k: nat, data: seq<byte>)
    requires LastBlock(views, k) && k < |views|
    ensures LastBlock(views[k := views[k] + data], k)
    ensures Flatten(views[k := views[k] + data]) == Flatten(views) + data
  {
    FlattenUpdate(views, k, views[k] + data);
    FlattenAt(views, k);
    FlattenEmpties(views[k + 1..]);
  }

  lemma LastBlockFront(views: seq<seq<byte>>, k: nat, data: seq<byte>)
    requires LastBlock(views, k) && views != []
    ensures LastBlock(views[0 := data + views[0]], k)
    ensures Flatten(views[0 := data + views[0]]) == data + Flatten(views)
  {
    FlattenUpdate(views, 0, data + views[0]);
    FlattenAt(views, 0);
  }

  lemma LastBlockPush(views: seq<seq<byte>>, k: nat, data: seq<byte>)
    requires LastBlock(views, k) && views != [] && data != []
    ensures LastBlock([data] + views, if k == 0 && views[0] == [] then 0 else k + 1)
  {
  }

  lemma LastBlockAfter(views: seq<seq<byte>>, k: nat, v: seq<byte>)
    requires LastBlock(views, k) && k <= |views| <= k + 1
    ensures LastBlock(views + [v], if v == [] then k else |views|)
  {
  }

  /** A byte string without its first n bytes; empty when n is at least its length. */
  ghost function DropBytes(s: seq<byte>, n: nat): seq<byte> {
    if n < |s| then s[n..] else []
  }

  lemma WalkStart(views: seq<seq<byte>>, k: nat)
    requires LastBlock(views, k) && Flatten(views) != []
    ensures k < |views| && Flatten(views[..0]) == []
  {
  }

  lemma WalkStep(views: seq<seq<byte>>, last: nat, k: nat, r: nat)
    requires LastBlock(views, last) && k <= last < |views|
    requires |Flatten(views[..k])| + r < |Flatten(views)| && r >= |views[k]|
    ensures k < last && |Flatten(views[..k + 1])| == |Flatten(views[..k])| + |views[k]|
  {
    FlattenAt(views, k);
    if k == last {
      FlattenEmpties(views[k + 1..]);
    }
    FlattenAt(views[..k + 1], k);
    assert views[..k + 1][..k] == views[..k];
  }

  /** Losing the blocks before number k and the first r bytes of block k. */
  lemma DropBlocks(views: seq<seq<byte>>, last: nat, k: nat, r: nat)
    requires LastBlock(views, last) && k <= last < |views| && r < |views[k]|
    ensures |Flatten(views[..k])| + r <= |Flatten(views)|
    ensures var vs := views[k := views[k][r..]][k..];
      LastBlock(vs, last - k) && Flatten(vs) == Flatten(views)[|Flatten(views[..k])| + r..]
  {
    var vs := views[k := views[k][r..]][k..];
    FlattenAt(views, k);
    FlattenAt(vs, 0);
    assert vs[1..] == views[k + 1..] && vs[..0] == [];
    DropConcat(Flatten(views[..k]), views[k], Flatten(views[k + 1..]), r);
    PrefixWhole(vs);
    hide Flatten;
    assert Flatten(vs) == [] + views[k][r..] + Flatten(views[k + 1..]);
  }

  /** Bytes p to p + n of block k, found in the whole byte string. */
  lemma BlockSlice(views: seq<seq<byte>>, k: nat, p: nat, n: nat)
    requires k < |views| && p + n <= |views[k]|
    ensures var s := |Flatten(views[..k])| + p;
      s + n <= |Flatten(views)| && Flatten(views)[s..s + n] == views[k][p..p + n]
  {
    FlattenAt(views, k);
  }

  lemma PrefixLength(views: seq<seq<byte>>, k: nat)
    requires k < |views|
    ensures |Flatten(views[..k + 1])| == |Flatten(views[..k])| + |views[k]|
  {
    FlattenAt(views[..k + 1], k);
    assert views[..k + 1][..k] == views[..k];
  }

  lemma PrefixWhole(views: seq<seq<byte>>)
    ensures Flatten(views[..|views|]) == Flatten(views) && Flatten(views[..0]) == []
  {
    assert views[..|views|] == views;
  }

  /** A position with n > 0 bytes behind it lies in some block. */
  lemma InBlock(views: seq<seq<byte>>, k: nat, p: nat, n: nat)
    requires k <= |views| && |Flatten(views[..k])| + p + n <= |Flatten(views)|
    ensures n > 0 ==> k < |views|
  {
    PrefixWhole(views);
  }

  /** The next m bytes of the slice that starts at s come from block k. */
  lemma SliceFromBlock(views: seq<seq<byte>>, k: nat, p: nat, m: nat, s: nat, n: nat, done: nat)
    requires k < |views| && p + m <= |views[k]| && done + m <= n && s + n <= |Flatten(views)|
    requires s + done == |Flatten(views[..k])| + p
    ensures Flatten(views)[s..s + n][done..done + m] == views[k][p..p + m]
    ensures |Flatten(views[..k + 1])| == |Flatten(views[..k])| + |views[k]|
  {
    BlockSlice(views, k, p, m);
    SubSlice(Flatten(views), s, n, done, m);
    PrefixLength(views, k);
  }

  lemma LastBlockConcat(a: seq<seq<byte>>, b: seq<seq<byte>>, k: nat)
    requires LastBlock(b, k) && Flatten(b) != []
    ensures LastBlock(a + b, |a| + k) && k < |b|
  {
  }

  /** How many leading blocks lie wholly within the first n bytes. */
  ghost function WholeBlocks(views: seq<seq<byte>>, n: nat): (k: nat)
    ensures k <= |views|
  {
    if views == [] || |views[0]| > n then 0 else 1 + WholeBlocks(views[1..], n - |views[0]|)
  }

  /** A walk that stops at block k, with r of n bytes to go, has passed the whole blocks. */
  lemma {:induction false} WholeBlocksAt(views: seq<seq<byte>>, k: nat, n: nat, r: nat)
    requires k < |views| && |Flatten(views[..k])| + r == n && r < |views[k]|
    ensures WholeBlocks(views, n) == k
  {
    if k > 0 {
      assert views[..k][0] == views[0] && views[..k][1..] == views[1..][..k - 1];
      WholeBlocksAt(views[1..], k - 1, n - |views[0]|, r);
    }
  }

  /** Splitting at block k: the part that stays and the part that goes. */
  lemma SplitBlocks(views: seq<seq<byte>>, last: nat, k: nat)
    requires LastBlock(views, last) && k <= last < |views|
    ensures LastBlock(views[k..], last - k)
    ensures Flatten(views) == Flatten(views[..k]) + Flatten(views[k..])
  {
    FlattenSplit(views, k);
  }

  lemma LastBlockHas(views: seq<seq<byte>>, k: nat)
    requires LastBlock(views, k)
    ensures k == 0 || (k < |views| && views[k] != [])
  {
  }

  ghost function TakeBytes(s: seq<byte>, n: nat): seq<byte> {
    if n < |s| then s[..n] else s
  }

  /** How many of the first n bytes of these blocks arrive in a buffer that holds dstLen bytes: the whole blocks, and
      the bytes behind them if its counter, which wraps, has room for these. */
  ghost function Arriving(views: seq<seq<byte>>, n: nat, dstLen: nat): nat {
    var whole := |Flatten(views[..WholeBlocks(views, n)])|;
    if n >= |Flatten(views)| || Wrap(dstLen + whole) + (n - whole) <= SIZE_MAX then n else whole
  }

  /** A move that stops in block k, with rest of n bytes to go, moves the blocks before it, and these bytes if they
      arrive. */
  lemma ArrivingIs(views: seq<seq<byte>>, k: nat, rest: nat, n: nat, dstLen: nat)
    requires k < |views| && |Flatten(views[..k])| + rest == n && rest < |views[k]|
    ensures var moved, kept := Flatten(views[..k]), Flatten(views[k..]);
            && n < |Flatten(views)| && rest <= |kept| && Flatten(views)[n..] == kept[rest..]
            && TakeBytes(Flatten(views), Arriving(views, n, dstLen))
               == moved + if Wrap(dstLen + |moved|) + rest <= SIZE_MAX then kept[..rest] else []
  {
    hide Wrap, Flatten, WholeBlocks;
    WholeBlocksAt(views, k, n, rest);
    FlattenSplit(views, k);
    FlattenAt(views[k..], 0);
    PrefixWhole(views[k..]);
    assert |Flatten(views[k..])| >= |views[k]|;
    TakeConcat(Flatten(views[..k]), Flatten(views[k..]), rest);
  }

  /** The blocks from number k on, without the first r bytes of block k. */
  ghost function RestBlocks(views: seq<seq<byte>>, k: nat, r: nat): seq<seq<byte>>
    requires k <= |views| && (k < |views| ==> r <= |views[k]|)
  {
    if k < |views| then views[k := views[k][r..]][k..] else []
  }

  /** Gathering the first n bytes into one block. */
  lemma PullBlocks(views: seq<seq<byte>>, last: nat, k: nat, r: nat, n: nat)
    requires LastBlock(views, last) && last < |views| && k <= |views| && 0 < n <= |Flatten(views)|
    requires |Flatten(views[..k])| + r == n && (if k < |views| then r < |views[k]| else r == 0)
    ensures var vs := [Flatten(views)[0..n]] + RestBlocks(views, k, r);
      LastBlock(vs, if k > last then 0 else last - k + 1) && Flatten(vs) == Flatten(views)
  {
    hide LastBlock, Flatten, RestBlocks;
    PullLast(views, last, k, r, Flatten(views)[0..n]);
    PullBytes(views, k, r, n);
  }

  lemma PullLast(views: seq<seq<byte>>, last: nat, k: nat, r: nat, v: seq<byte>)
    requires LastBlock(views, last) && last < |views| && k <= |views| && v != []
    requires if k < |views| then r < |views[k]| else r == 0
    ensures LastBlock([v] + RestBlocks(views, k, r), if k > last then 0 else last - k + 1)
  {
    hide Flatten;
  }

  lemma PullBytes(views: seq<seq<byte>>, k: nat, r: nat, n: nat)
    requires k <= |views| && n <= |Flatten(views)|
    requires |Flatten(views[..k])| + r == n && (if k < |views| then r < |views[k]| else r == 0)
    ensures Flatten([Flatten(views)[0..n]] + RestBlocks(views, k, r)) == Flatten(views)
  {
    var rest := RestBlocks(views, k, r);
    var vs := [Flatten(views)[0..n]] + rest;
    assert vs[1..] == rest;
    if k < |views| {
      FlattenAt(views, k);
      assert rest[1..] == views[k + 1..];
    } else {
      PrefixWhole(views);
    }
  }

  /** More bytes than the first block holds: the last block with data is a later one. */
  lemma NeedsMore(views: seq<seq<byte>>, last: nat, n: nat)
    requires LastBlock(views, last) && views != [] && |views[0]| < n <= |Flatten(views)|
    ensures 1 <= last < |views| && Flatten(views[..0]) == []
  {
    FlattenAt(views, 0);
    if last == 0 {
      FlattenEmpties(views[1..]);
    }
  }

  lemma LastBlockMore(views: seq<seq<byte>>, k: nat)
    requires LastBlock(views, k)
    ensures LastBlock(views + [[]], k)
  {
  }

  lemma TrimmedTail(views: seq<seq<byte>>, k: nat)
    requires LastBlock(views, k) && k < |views|
    ensures LastBlock(views[..k + 1] + [[]], k)
    ensures Flatten(views[..k + 1]) == Flatten(views)
  {
    hide LastBlock, Flatten;
    LastBlockTrim(views, k);
    var vs := views[..k + 1] + [[]];
    LastBlockTail(views, vs, k);
  }

  lemma LastBlockTail(views: seq<seq<byte>>, vs: seq<seq<byte>>, k: nat)
    requires LastBlock(views, k) && k < |views|
    requires |vs| == k + 2 && vs[k] == views[k] && vs[k + 1] == []
    ensures LastBlock(vs, k)
  {
  }

  lemma LastBlockTrim(views: seq<seq<byte>>, k: nat)
    requires LastBlock(views, k) && k < |views|
    ensures Flatten(views[..k + 1]) == Flatten(views)
  {
    FlattenTrim(views, k + 1);
  }

  /** After a partial move every byte has arrived, and the counter of the destination tells its length, if and only if
      that length is one a size_t can hold. Where it is not, either bytes are lost or the counter is wrong. */
  lemma ArrivingAll(views: seq<seq<byte>>, n: nat, dstLen: nat)
    requires n < |Flatten(views)| <= SIZE_MAX && dstLen <= SIZE_MAX
    ensures var m, whole := Arriving(views, n, dstLen), |Flatten(views[..WholeBlocks(views, n)])|;
            && whole <= m <= n && (m == n || m == whole)
            && (m == n && Wrap(dstLen + m) == dstLen + m <==> dstLen + n <= SIZE_MAX)
            && (m == n <==> dstLen + n <= SIZE_MAX || dstLen + whole > SIZE_MAX || whole == n)
  {
    WholeBlocksFit(views, n);
  }

  lemma {:induction false} WholeBlocksFit(views: seq<seq<byte>>, n: nat)
    ensures |Flatten(views[..WholeBlocks(views, n)])| <= n
  {
    var k := WholeBlocks(views, n);
    if k > 0 {
      WholeBlocksFit(views[1..], n - |views[0]|);
      assert views[..k][1..] == views[1..][..k - 1];
    }
  }

  /** One byte asked of a two-byte chain, for a destination at the top of its counter, is lost. */
  lemma ArrivingNone(a: byte, b: byte)
    ensures Flatten([[a, b]]) == [a, b] && Arriving([[a, b]], 1, SIZE_MAX) == 0
  {
    assert [[a, b]][1..] == [];
  }

  /** A chain of one byte moves there whole, and the counter comes round to zero. */
  lemma ArrivingWrapped(a: byte, b: byte)
    ensures Flatten([[a], [b]]) == [a, b] && Arriving([[a], [b]], 1, SIZE_MAX) == 1 && Wrap(SIZE_MAX + 1) == 0
  {
    assert [[a], [b]][1..] == [[b]] && [[b]][1..] == [] && Flatten([[b]]) == [b];
    assert [[a], [b]][..1] == [[a]] && [[a]][1..] == [] && Flatten([[a]]) == [a];
    assert WholeBlocks([[b]], 0) == 0;
  }
}
