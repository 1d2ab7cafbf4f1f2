/** DNS names on the wire: length-prefixed labels, compressed by pointers to names written before. */
module DnsNames {
  import opened Bytes

  const DOT: byte := 46
  const MAX_LABELS: nat := 128
  const MAX_POINTER: nat := 0x4000

  // ---- parsing ----

  /** What name_parse makes of the packet from byte j on, after some jumps and with some of the name put out */
  function ParseFrom(p: seq<byte>, j: nat, jumps: nat, out: seq<byte>, outLen: nat,
      nameEnd: Option<nat>): Option<(seq<byte>, nat)>
    decreases |p| + 1 - jumps, |p| - j
  {
    if j >= |p| then None
    else
      var labelLen := p[j] as nat;
      if labelLen == 0 then
        if |out| >= outLen then None else Some((out, if nameEnd.Some? then nameEnd.value else j + 1))
      else if labelLen >= 64 then
        if j + 1 >= |p| then None
        else
          var target := Target(p, j);
          if target >= |p| || jumps + 1 > |p| then None
          else ParseFrom(p, target, jumps + 1, out, outLen, if nameEnd.Some? then nameEnd else Some(j + 2))
      else
        var dotted := if out != [] then out + [DOT] else out;
        if (out != [] && |out| + 1 >= outLen) || |dotted| + labelLen >= outLen || j + 1 + labelLen > |p| then None
        else ParseFrom(p, j + 1 + labelLen, jumps, dotted + p[j + 1..j + 1 + labelLen], outLen, nameEnd)
  }

  /** The offset a pointer names: the low 14 bits of two bytes */
  function Target(p: seq<byte>, j: nat): nat
    requires j + 1 < |p|
  {
    p[j] as nat % 64 * 256 + p[j + 1] as nat
  }

  lemma TargetIs(p: seq<byte>, j: nat)
    requires j + 1 < |p|
    ensures Target(p, j) == p[j] as nat % 64 * 256 + p[j + 1] as nat
  {
  }

  /** One turn of name_parse: the end, a jump or a label */
  lemma ParseStep(p: seq<byte>, j: nat, jumps: nat, out: seq<byte>, outLen: nat, nameEnd: Option<nat>)
    ensures ParseFrom(p, j, jumps, out, outLen, nameEnd) ==
            if j >= |p| then None
            else if p[j] == 0 then
              if |out| >= outLen then None else Some((out, if nameEnd.Some? then nameEnd.value else j + 1))
            else if p[j] >= 64 then
              if j + 1 >= |p| || Target(p, j) >= |p| || jumps + 1 > |p| then None
              else ParseFrom(p, Target(p, j), jumps + 1, out, outLen, if nameEnd.Some? then nameEnd else Some(j + 2))
            else
              var labelLen, dotted := p[j] as nat, if out != [] then out + [DOT] else out;
              if (out != [] && |out| + 1 >= outLen) || |dotted| + labelLen >= outLen || j + 1 + labelLen > |p| then None
              else ParseFrom(p, j + 1 + labelLen, jumps, dotted + p[j + 1..j + 1 + labelLen], outLen, nameEnd)
  {
  }

  function Parse(p: seq<byte>, j: nat, outLen: nat): Option<(seq<byte>, nat)> {
    ParseFrom(p, j, 0, [], outLen, None)
  }

  /** name_parse terminates on every packet, pointer cycles included, and reads nothing beyond its end. */
  method NameParse(packet: seq<byte>, idx: nat, outLen: nat) returns (r: int, next: nat, name: seq<byte>)
    ensures var n := Parse(packet, idx, outLen);
            if n.None? then r == -1 && next == idx else r == 0 && (name, next) == n.value
    ensures r == 0 ==> |name| < outLen && next <= |packet|
  {
    var length := |packet|;
    var nameEnd, j, ptrCount := -1, idx, 0;
    next, name, r := idx, [], 0;
    hide ParseFrom, Target;
    while true
      invariant 0 <= j && 0 <= ptrCount <= length && -1 <= nameEnd <= length && next == idx
      invariant Parse(packet, idx, outLen) ==
                ParseFrom(packet, j, ptrCount, name, outLen, if nameEnd < 0 then None else Some(nameEnd))
      decreases length - ptrCount, length - j
    {
      ParseStep(packet, j, ptrCount, name, outLen, if nameEnd < 0 then None else Some(nameEnd));
      if j >= length {
        return -1, idx, [];
      }
      var labelLen := packet[j] as nat;
      ghost var at := j;
      j := j + 1;
      if labelLen == 0 {
        break;
      }
      if labelLen / 64 != 0 {
        if j >= length {
          return -1, idx, [];
        }
        var ptrLow := packet[j] as nat;
        j := j + 1;
        if nameEnd < 0 {
          nameEnd := j;
        }
        j := labelLen % 64 * 256 + ptrLow;
        TargetIs(packet, at);
        if j >= length {
          return -1, idx, [];
        }
        ptrCount := ptrCount + 1;
        if ptrCount > length {
          return -1, idx, [];
        }
        continue;
      }
      if name != [] {
        if |name| + 1 >= outLen {
          return -1, idx, [];
        }
        name := name + [DOT];
      }
      if |name| + labelLen >= outLen || j + labelLen > length {
        return -1, idx, [];
      }
      name := name + packet[j..j + labelLen];
      j := j + labelLen;
    }
    if |name| >= outLen {
      return -1, idx, [];
    }
    next := if nameEnd < 0 then j else nameEnd;
  }

  // ---- names as labels ----

  /** strchr(name, '.') */
  function FirstDot(name: seq<byte>): (k: nat)
    ensures k <= |name| && DOT !in name[..k] && (k < |name| ==> name[k] == DOT)
  {
    if name == [] || name[0] == DOT then 0
    else
      var k := FirstDot(name[1..]) + 1;
      assert name[..k] == [name[0]] + name[1..][..k - 1];
      k
  }

  function Split(name: seq<byte>): (labels: seq<seq<byte>>)
    ensures labels != []
    decreases |name|
  {
    var k := FirstDot(name);
    if k == |name| then [name] else [name[..k]] + Split(name[k + 1..])
  }

  function Join(labels: seq<seq<byte>>): seq<byte> {
    if labels == [] then []
    else if |labels| == 1 then labels[0]
    else labels[0] + [DOT] + Join(labels[1..])
  }

  lemma {:induction false} SplitStep(name: seq<byte>)
    ensures FirstDot(name) == |name| ==> Split(name) == [name]
    ensures FirstDot(name) < |name| ==> Split(name) == [name[..FirstDot(name)]] + Split(name[FirstDot(name) + 1..])
  {
    hide FirstDot;
  }

  lemma {:induction false} SplitJoin(name: seq<byte>)
    ensures Join(Split(name)) == name
    decreases |name|
  {
    var k := FirstDot(name);
    SplitStep(name);
    hide FirstDot, Split;
    if k < |name| {
      SplitJoin(name[k + 1..]);
      assert name == name[..k] + [DOT] + name[k + 1..];
      assert ([name[..k]] + Split(name[k + 1..]))[1..] == Split(name[k + 1..]);
    }
  }

  /** No label is empty, as one is when a name begins or ends with a dot or has two in a row. */
  predicate Proper(labels: seq<seq<byte>>) {
    forall i :: 0 <= i < |labels| ==> labels[i] != []
  }

  // ---- what bytes on the wire stand for ----

  /** Below the limit the bytes from pos on stand for these labels; a pointer leads to bytes wholly before itself. */
  ghost predicate ReadsAs(b: seq<byte>, pos: nat, labels: seq<seq<byte>>, limit: nat)
    decreases limit, |labels|
  {
    && pos < limit <= |b|
    && if b[pos] == 0 then labels == []
       else if b[pos] >= 192 then pos + 1 < limit && ReadsAs(b, Target(b, pos), labels, pos)
       else
         && b[pos] < 64 && labels != [] && |labels[0]| == b[pos] as nat
         && pos + 1 + |labels[0]| < limit && b[pos + 1..pos + 1 + |labels[0]|] == labels[0]
         && ReadsAs(b, pos + 1 + |labels[0]|, labels[1..], limit)
  }

  /** Just behind the first pointer or zero */
  function EndAt(b: seq<byte>, pos: nat): nat
    decreases |b| - pos
  {
    if pos >= |b| then pos
    else if b[pos] == 0 then pos + 1
    else if b[pos] >= 192 then pos + 2
    else EndAt(b, pos + 1 + b[pos] as nat)
  }

  /** Later bytes do not change what earlier ones stand for. */
  lemma {:induction false} ReadsLonger(b: seq<byte>, pos: nat, labels: seq<seq<byte>>, limit: nat, b': seq<byte>,
      limit': nat)
    requires ReadsAs(b, pos, labels, limit) && b <= b' && limit <= limit' <= |b'|
    ensures ReadsAs(b', pos, labels, limit') && EndAt(b', pos) == EndAt(b, pos)
    decreases limit, |labels|
  {
    if b[pos] >= 192 {
      ReadsLonger(b, Target(b, pos), labels, pos, b', pos);
    } else if b[pos] != 0 {
      ReadsLonger(b, pos + 1 + |labels[0]|, labels[1..], limit, b', limit');
    }
  }

  /** The labels behind what is already put out, with dots between */
  function Dotted(out: seq<byte>, labels: seq<seq<byte>>): seq<byte>
    decreases |labels|
  {
    if labels == [] then out
    else Dotted((if out == [] then out else out + [DOT]) + labels[0], labels[1..])
  }

  lemma {:induction false} DottedLonger(out: seq<byte>, labels: seq<seq<byte>>)
    ensures |out| <= |Dotted(out, labels)|
    decreases |labels|
  {
    if labels != [] {
      DottedLonger((if out == [] then out else out + [DOT]) + labels[0], labels[1..]);
    }
  }

  lemma {:induction false} DottedJoin(out: seq<byte>, labels: seq<seq<byte>>)
    requires Proper(labels) && labels != []
    ensures Dotted(out, labels) == (if out == [] then out else out + [DOT]) + Join(labels)
    decreases |labels|
  {
    var out' := (if out == [] then out else out + [DOT]) + labels[0];
    if |labels| > 1 {
      DottedJoin(out', labels[1..]);
      assert labels[0] != [];
      assert out' + [DOT] + Join(labels[1..]) ==
          (if out == [] then out else out + [DOT]) + (labels[0] + [DOT] + Join(labels[1..]));
    } else {
      assert labels[1..] == [];
    }
  }

  /** The parser finds what the bytes stand for: a pointer leads to an earlier limit, so the parser never jumps too
      often. */
  lemma {:induction false} ReadsParse(b: seq<byte>, pos: nat, labels: seq<seq<byte>>, limit: nat, jumps: nat,
      out: seq<byte>,
                                      outLen: nat, nameEnd: Option<nat>)
    requires ReadsAs(b, pos, labels, limit) && Proper(labels) && jumps + limit <= |b| && |Dotted(out, labels)| < outLen
    ensures ParseFrom(b, pos, jumps, out, outLen, nameEnd)
            == Some((Dotted(out, labels), if nameEnd.Some? then nameEnd.value else EndAt(b, pos)))
    decreases limit, |labels|
  {
    if b[pos] >= 192 {
      ReadsParse(b, Target(b, pos), labels, pos, jumps + 1, out, outLen, if nameEnd.Some? then nameEnd
          else Some(pos + 2));
    } else if b[pos] != 0 {
      var out' := (if out == [] then out else out + [DOT]) + labels[0];
      assert labels[0] != [];
      DottedLonger(out', labels[1..]);
      ReadsParse(b, pos + 1 + |labels[0]|, labels[1..], limit, jumps, out', outLen, nameEnd);
    }
  }

  // ---- writing with a label table ----

  datatype Entry = Entry(name: seq<byte>, pos: nat)

  /** dnslabel_table_get_pos */
  function Lookup(table: seq<Entry>, name: seq<byte>): (r: Option<nat>)
    ensures r.Some? ==> exists i :: 0 <= i < |table| && table[i] == Entry(name, r.value)
  {
    if table == [] then None
    else if table[0].name == name then
      assert table[0] == Entry(name, table[0].pos);
      Some(table[0].pos)
    else
      var r := Lookup(table[1..], name);
      assert r.Some? ==> forall i :: 0 <= i < |table[1..]| ==> table[1..][i] == table[i + 1];
      r
  }

  /** dnslabel_table_add, whose failure on a full table is ignored */
  function WithEntry(table: seq<Entry>, e: Entry): seq<Entry> {
    if |table| == MAX_LABELS then table else table + [e]
  }

  datatype Encoding = Fail(code: int) | Done(bytes: seq<byte>)

  /** What dnsname_to_labels puts at position j for the name from some label on, and the table it leaves. With no table,
      nothing is looked up. */
  function Encode(name: seq<byte>, table: Option<seq<Entry>>, j: nat, bufLen: nat): (Encoding, Option<seq<Entry>>)
    decreases |name|
  {
    if table.Some? && Lookup(table.value, name).Some? then
      if j + 2 > bufLen then (Fail(-2), table) else (Done(Pointer(Lookup(table.value, name).value)), table)
    else
      var k := FirstDot(name);
      if k > 63 then (Fail(-1), table)
      else if j + k + 1 > bufLen then (Fail(-2), table)
      else
        var table' := if table.Some? then Some(WithEntry(table.value, Entry(name, j))) else None;
        var head := [k as byte] + name[..k];
        if k == |name| then (Done(if k == 0 then head else head + [0]), table')
        else
          var rest := Encode(name[k + 1..], table', j + 1 + k, bufLen);
          (if rest.0.Fail? then rest.0 else Done(head + rest.0.bytes), rest.1)
  }

  /** The 16 bits of ref | 0xc000 */
  function Pointer(ref: nat): (b: seq<byte>)
    ensures |b| == 2
  {
    [(192 + ref % MAX_POINTER / 256) as byte, (ref % 256) as byte]
  }

  /** Position 0x4000 is one that does not: its pointer leads to the start of the message. */
  lemma PointerWrong()
    ensures Target(Pointer(0x4000), 0) == 0
  {
    assert Pointer(0x4000) == [192, 0];
  }

  /** Where a pointer for the name or for one of its suffixes leads: the table's position for the first of these
      it has */
  function Used(table: Option<seq<Entry>>, name: seq<byte>): Option<nat>
    decreases |name|
  {
    if table.None? then None
    else if Lookup(table.value, name).Some? then Lookup(table.value, name)
    else
      var k := FirstDot(name);
      if k == |name| then None else Used(table, name[k + 1..])
  }

  /** If a pointer is used for the name, it leads to a position that fits 14 bits. */
  predicate Near(table: Option<seq<Entry>>, name: seq<byte>) {
    Used(table, name).Some? ==> Used(table, name).value < MAX_POINTER
  }

  /** Entries for other names do not matter to a lookup. */
  lemma {:induction false} LookupOther(table: seq<Entry>, e: Entry, name: seq<byte>)
    requires e.name != name
    ensures Lookup(WithEntry(table, e), name) == Lookup(table, name)
  {
    if |table| != MAX_LABELS {
      LookupAppended(table, e, name);
    }
  }

  lemma {:induction false} LookupAppended(table: seq<Entry>, e: Entry, name: seq<byte>)
    requires e.name != name
    ensures Lookup(table + [e], name) == Lookup(table, name)
  {
    if table == [] {
      assert (table + [e])[1..] == [];
    } else {
      assert (table + [e])[1..] == table[1..] + [e];
      LookupAppended(table[1..], e, name);
    }
  }

  /** Nor do the entries for longer names, which are those noted while the name is written. */
  lemma {:induction false} UsedNoted(table: Option<seq<Entry>>, longer: seq<byte>, pos: nat, name: seq<byte>)
    requires |longer| > |name|
    ensures Used(Noted(table, longer, pos), name) == Used(table, name)
    decreases |name|
  {
    if table.Some? {
      LookupOther(table.value, Entry(longer, pos), name);
      var k := FirstDot(name);
      if k < |name| {
        UsedNoted(table, longer, pos, name[k + 1..]);
      }
    }
  }

  /** A pointer leads back where it should exactly when the position fits 14 bits. */
  lemma PointerExact(ref: nat)
    ensures Target(Pointer(ref), 0) == ref <==> ref < MAX_POINTER
  {
    assert ref % MAX_POINTER % 256 == ref % 256;
  }

  // ---- the round trip ----

  /** A table entry is good when the bytes at its position stand for its name. */
  ghost predicate EntryOk(b: seq<byte>, e: Entry) {
    ReadsAs(b, e.pos, Split(e.name), |b|)
  }

  ghost predicate TableOk(b: seq<byte>, table: seq<Entry>) {
    forall i :: 0 <= i < |table| ==> EntryOk(b, table[i])
  }

  /** A C string with no empty label */
  predicate Writable(name: seq<byte>) {
    NoZero(name) && Proper(Split(name))
  }

  predicate NoZero(name: seq<byte>) {
    forall i :: 0 <= i < |name| ==> name[i] != 0
  }

  lemma ProperRest(first: seq<byte>, rest: seq<seq<byte>>)
    requires Proper([first] + rest)
    ensures first != [] && Proper(rest)
  {
    assert ([first] + rest)[0] == first;
    assert forall i :: 0 <= i < |rest| ==> rest[i] == ([first] + rest)[i + 1];
  }

  lemma NoZeroRest(name: seq<byte>, k: nat)
    requires k <= |name| && NoZero(name)
    ensures NoZero(name[k..])
  {
    var rest := name[k..];
    forall i | 0 <= i < |rest|
      ensures rest[i] != 0
    {
      assert rest[i] == name[k + i];
    }
  }

  lemma WritableRest(name: seq<byte>)
    requires Writable(name)
    ensures var k := FirstDot(name);
            && k > 0 && Split(name)[0] == name[..k]
            && (k < |name| ==> Writable(name[k + 1..]) && Split(name) == [name[..k]] + Split(name[k + 1..]))
  {
    var k := FirstDot(name);
    SplitStep(name);
    hide Split, FirstDot, Proper, NoZero;
    if k == |name| {
      assert [name] + [] == [name] && name[..|name|] == name;
      ProperRest(name, []);
    } else {
      ProperRest(name[..k], Split(name[k + 1..]));
      NoZeroRest(name, k + 1);
    }
  }

  lemma TableLonger(b: seq<byte>, table: seq<Entry>, b': seq<byte>)
    requires TableOk(b, table) && b <= b'
    ensures TableOk(b', table)
  {
    forall i | 0 <= i < |table|
      ensures EntryOk(b', table[i])
    {
      assert EntryOk(b, table[i]);
      ReadsLonger(b, table[i].pos, Split(table[i].name), |b|, b', |b'|);
    }
  }

  /** A label in front of bytes that stand for the rest of a name makes bytes that stand for the name. */
  lemma ReadsLabel(b: seq<byte>, head: seq<byte>, text: seq<byte>, tail: seq<byte>, labels: seq<seq<byte>>)
    requires 0 < |text| < 64 && head == [|text| as byte] + text && tail != []
    requires var all := b + head + tail; ReadsAs(all, |b| + |head|, labels, |all|) && EndAt(all, |b| + |head|) == |all|
    ensures var all := b + head + tail; ReadsAs(all, |b|, [text] + labels, |all|) && EndAt(all, |b|) == |all|
  {
    hide ReadsAs, EndAt;
    var all := b + head + tail;
    assert all[|b|] == head[0] && all[|b| + 1..|b| + 1 + |text|] == text;
    ReadsLabelAt(all, |b|, text, labels);
  }

  lemma ReadsLabelAt(all: seq<byte>, pos: nat, text: seq<byte>, labels: seq<seq<byte>>)
    requires 0 < |text| < 64 && pos + 1 + |text| < |all| && all[pos] as nat == |text|
    requires all[pos + 1..pos + 1 + |text|] == text
    requires ReadsAs(all, pos + 1 + |text|, labels, |all|)
    ensures ReadsAs(all, pos, [text] + labels, |all|) && EndAt(all, pos) == EndAt(all, pos + 1 + |text|)
  {
    assert ([text] + labels)[1..] == labels;
  }

  lemma ReadsZero(b: seq<byte>, all: seq<byte>)
    requires all == b + [0]
    ensures ReadsAs(all, |b|, [], |all|) && EndAt(all, |b|) == |all|
  {
  }

  lemma ReadsPointer(b: seq<byte>, ref: nat, labels: seq<seq<byte>>)
    requires ref < MAX_POINTER && ReadsAs(b, ref, labels, |b|)
    ensures var all := b + Pointer(ref); ReadsAs(all, |b|, labels, |all|) && EndAt(all, |b|) == |all|
  {
    var all := b + Pointer(ref);
    ReadsLonger(b, ref, labels, |b|, all, |b|);
    PointerExact(ref);
    assert all[|b|] == Pointer(ref)[0] && all[|b| + 1] == Pointer(ref)[1];
    assert Target(all, |b|) == Target(Pointer(ref), 0);
  }

  /** The entries that belong to the name being written, which do not stand for anything yet: all longer than what is
      left */
  ghost predicate Pending(table: seq<Entry>, from: nat, length: nat) {
    forall i :: from <= i < |table| ==> |table[i].name| > length
  }

  /** Once a name is written behind b, the bytes stand for it, and so does every new entry for its own suffix. */
  lemma {:induction false} EncodeReads(b: seq<byte>, name: seq<byte>, table: Option<seq<Entry>>, ready: nat,
      bufLen: nat)
    requires Writable(name) && Near(table, name)
    requires table.Some? ==>
        ready <= |table.value| && TableOk(b, table.value[..ready]) && Pending(table.value, ready, |name|)
    ensures var (r, table') := Encode(name, table, |b|, bufLen);
            r.Done? ==>
              var all := b + r.bytes;
              && r.bytes != [] && ReadsAs(all, |b|, Split(name), |all|) && EndAt(all, |b|) == |all|
              && table'.Some? == table.Some?
              && (table.Some? ==> table.value <= table'.value && TableOk(all, table'.value[|table.value|..]))
    decreases |name|, 1
  {
    var (r, table') := Encode(name, table, |b|, bufLen);
    WritableRest(name);
    if r.Done? {
      if table.Some? && Lookup(table.value, name).Some? {
        var i :| 0 <= i < |table.value| && table.value[i] == Entry(name, Lookup(table.value, name).value);
        assert i < ready;
        assert table.value[..ready][i] == table.value[i];
        assert EntryOk(b, table.value[i]);
        ReadsPointer(b, table.value[i].pos, Split(name));
      } else {
        EncodeReadsLabel(b, name, table, ready, bufLen);
      }
    }
  }

  lemma {:induction false} EncodeReadsLabel(b: seq<byte>, name: seq<byte>, table: Option<seq<Entry>>, ready: nat,
      bufLen: nat)
    requires Writable(name) && Near(table, name)
    requires table.Some? ==>
        ready <= |table.value| && TableOk(b, table.value[..ready]) && Pending(table.value, ready, |name|)
    requires table.Some? ==> Lookup(table.value, name).None?
    requires Encode(name, table, |b|, bufLen).0.Done?
    ensures var (r, table') := Encode(name, table, |b|, bufLen);
            var all := b + r.bytes;
            && r.bytes != [] && ReadsAs(all, |b|, Split(name), |all|) && EndAt(all, |b|) == |all|
            && table'.Some? == table.Some?
            && (table.Some? ==> table.value <= table'.value && TableOk(all, table'.value[|table.value|..]))
    decreases |name|, 0
  {
    hide Encode, ReadsAs, EndAt, WithEntry, TableOk, Pending, Writable, Lookup, Split, FirstDot, Near, NoZero, Proper;
    WritableRest(name);
    EncodeStep(name, table, |b|, bufLen);
    SplitStep(name);
    var k := FirstDot(name);
    var text, head := name[..k], [k as byte] + name[..k];
    var table1 := Noted(table, name, |b|);
    NearRest(table, name, |b|);
    if k == |name| {
      ReadsZero(b + head, b + head + [0]);
      assert [text] + [] == [name];
      NoneNew(b + head + [0], table1);
      Prepended(b, head, text, [0], [], name, table, table1);
    } else {
      var suffix := name[k + 1..];
      if table.Some? {
        TableGrows(b, head, table.value, Entry(name, |b|), ready, |suffix|);
      }
      EncodeReads(b + head, suffix, table1, ready, bufLen);
      var rest := Encode(suffix, table1, |b + head|, bufLen);
      Prepended(b, head, text, rest.0.bytes, Split(suffix), name, table, rest.1);
    }
  }

  lemma NoneNew(b: seq<byte>, table: Option<seq<Entry>>)
    ensures table.Some? ==> table.value <= table.value && TableOk(b, table.value[|table.value|..])
  {
  }

  lemma NearRest(table: Option<seq<Entry>>, name: seq<byte>, pos: nat)
    requires Near(table, name) && (table.Some? ==> Lookup(table.value, name).None?)
    ensures var k := FirstDot(name); k < |name| ==> Near(Noted(table, name, pos), name[k + 1..])
  {
    hide FirstDot, Lookup, Noted;
    var k := FirstDot(name);
    if k < |name| {
      UsedNoted(table, name, pos, name[k + 1..]);
    }
  }

  /** A label and what follows it stand for the name, and so the name's entry is good. */
  lemma Prepended(b: seq<byte>, head: seq<byte>, text: seq<byte>, tail: seq<byte>, labels: seq<seq<byte>>,
      name: seq<byte>,
                  table: Option<seq<Entry>>, table': Option<seq<Entry>>)
    requires 0 < |text| < 64 && head == [|text| as byte] + text && tail != [] && Split(name) == [text] + labels
    requires var all := b + head + tail; ReadsAs(all, |b| + |head|, labels, |all|) && EndAt(all, |b| + |head|) == |all|
    requires table'.Some? == table.Some?
    requires table.Some? ==>
               var table1 := WithEntry(table.value, Entry(name, |b|));
               table1 <= table'.value && TableOk(b + head + tail, table'.value[|table1|..])
    ensures var all := b + (head + tail);
            && ReadsAs(all, |b|, Split(name), |all|) && EndAt(all, |b|) == |all|
            && (table.Some? ==> table.value <= table'.value && TableOk(all, table'.value[|table.value|..]))
  {
    hide ReadsAs, EndAt, WithEntry, TableOk, Split;
    ReadsLabel(b, head, text, tail, labels);
    assert b + head + tail == b + (head + tail);
    if table.Some? {
      EntriesOk(b + head + tail, table.value, Entry(name, |b|), table'.value);
    }
  }

  /** The table after dnslabel_table_add for the name at a position, if there is a table */
  function Noted(table: Option<seq<Entry>>, name: seq<byte>, pos: nat): Option<seq<Entry>> {
    if table.Some? then Some(WithEntry(table.value, Entry(name, pos))) else None
  }

  lemma EncodeStep(name: seq<byte>, table: Option<seq<Entry>>, j: nat, bufLen: nat)
    requires table.Some? ==> Lookup(table.value, name).None?
    requires Encode(name, table, j, bufLen).0.Done?
    ensures var k := FirstDot(name);
            && k <= 63 && j + k + 1 <= bufLen
            && var head := [k as byte] + name[..k];
            if k == |name| then Encode(name, table, j, bufLen) ==
                (Done(if k == 0 then head else head + [0]), Noted(table, name, j))
            else
              var rest := Encode(name[k + 1..], Noted(table, name, j), j + 1 + k, bufLen);
              rest.0.Done? && Encode(name, table, j, bufLen) == (Done(head + rest.0.bytes), rest.1)
  {
  }

  lemma TableGrows(b: seq<byte>, head: seq<byte>, table: seq<Entry>, e: Entry, ready: nat, length: nat)
    requires ready <= |table| && TableOk(b, table[..ready]) && Pending(table, ready, |e.name|) && length < |e.name|
    ensures ready <= |WithEntry(table, e)| && TableOk(b + head, WithEntry(table, e)[..ready])
    ensures Pending(WithEntry(table, e), ready, length)
  {
    TableLonger(b, table[..ready], b + head);
    assert WithEntry(table, e)[..ready] == table[..ready];
  }

  lemma EntriesOk(all: seq<byte>, table: seq<Entry>, e: Entry, table': seq<Entry>)
    requires WithEntry(table, e) <= table' && EntryOk(all, e) && TableOk(all, table'[|WithEntry(table, e)|..])
    ensures table <= table' && TableOk(all, table'[|table|..])
  {
    var new1, new2 := table'[|table|..], table'[|WithEntry(table, e)|..];
    if |table| != MAX_LABELS {
      assert new1 == [e] + new2;
    } else {
      assert new1 == new2;
    }
  }

  /** A name written anywhere in a message, with or without a table, is read back from there, whatever follows it. */
  lemma NameRound(b: seq<byte>, name: seq<byte>, table: Option<seq<Entry>>, bufLen: nat, after: seq<byte>, outLen: nat)
    requires Writable(name) && Near(table, name) && |name| < outLen && (table.Some? ==> TableOk(b, table.value))
    requires Encode(name, table, |b|, bufLen).0.Done?
    ensures var bytes := Encode(name, table, |b|, bufLen).0.bytes;
            Parse(b + bytes + after, |b|, outLen) == Some((name, |b| + |bytes|))
  {
    hide Encode, ReadsAs, EndAt, TableOk, Split, ParseFrom, Dotted;
    var bytes := Encode(name, table, |b|, bufLen).0.bytes;
    var all, packet, labels := b + bytes, b + bytes + after, Split(name);
    if table.Some? {
      assert table.value[..|table.value|] == table.value;
    }
    EncodeReads(b, name, table, if table.Some? then |table.value| else 0, bufLen);
    assert all <= packet;
    ReadsLonger(all, |b|, labels, |all|, packet, |packet|);
    DottedJoin([], labels);
    SplitJoin(name);
    assert Dotted([], labels) == name by {
      assert [] + Join(labels) == Join(labels);
    }
    ReadsParse(packet, |b|, labels, |packet|, 0, [], outLen, None);
  }

  /** The table stays good: each entry leads a parser to its own suffix. */
  lemma TableRound(b: seq<byte>, name: seq<byte>, table: seq<Entry>, bufLen: nat)
    requires Writable(name) && Near(Some(table), name) && TableOk(b, table)
    ensures var (r, table') := Encode(name, Some(table), |b|, bufLen);
            r.Done? ==> table'.Some? && table <= table'.value && TableOk(b + r.bytes, table'.value)
  {
    var (r, table') := Encode(name, Some(table), |b|, bufLen);
    if r.Done? {
      assert table[..|table|] == table;
      EncodeReads(b, name, Some(table), |table|, bufLen);
      TableLonger(b, table, b + r.bytes);
      assert table'.value == table + table'.value[|table|..];
    }
  }

  /** A name written after some other bytes of the message */
  datatype Item = Item(before: seq<byte>, name: seq<byte>)

  /** A whole message: all names through one table; where each starts and ends is put out too. */
  function WriteAll(b: seq<byte>, table: seq<Entry>, items: seq<Item>, bufLen: nat): Option<(seq<byte>,
      seq<(nat, nat)>)>
    decreases |items|
  {
    if items == [] then Some((b, []))
    else
      var b1 := b + items[0].before;
      match Encode(items[0].name, Some(table), |b1|, bufLen)
      case (Fail(_), _) => None
      case (Done(bytes), t) =>
        match WriteAll(b1 + bytes, if t.Some? then t.value else table, items[1..], bufLen)
        case None => None
        case Some(r) => Some((r.0, [(|b1|, |b1| + |bytes|)] + r.1))
  }

  /** Every pointer used in a message leads to a position that fits 14 bits. */
  ghost predicate NearAll(b: seq<byte>, table: seq<Entry>, items: seq<Item>, bufLen: nat)
    decreases |items|
  {
    items != [] ==>
      var b1 := b + items[0].before;
      && Near(Some(table), items[0].name)
      && match Encode(items[0].name, Some(table), |b1|, bufLen)
         case (Fail(_), _) => true
         case (Done(bytes), t) => NearAll(b1 + bytes, if t.Some? then t.value else table, items[1..], bufLen)
  }

  /** So it is in a buffer of at most 0x4000 bytes, whatever is written. */
  lemma {:induction false} ShortIsNear(b: seq<byte>, table: seq<Entry>, items: seq<Item>, bufLen: nat)
    requires bufLen <= MAX_POINTER && TableOk(b, table) && forall i :: 0 <= i < |items| ==> Writable(items[i].name)
    requires WriteAll(b, table, items, bufLen).Some?
    ensures NearAll(b, table, items, bufLen)
    decreases |items|
  {
    if items != [] {
      var b1, name := b + items[0].before, items[0].name;
      var (r, t) := Encode(name, Some(table), |b1|, bufLen);
      EncodedLength(name, Some(table), |b1|, bufLen);
      TableLonger(b, table, b1);
      UsedWithin(b1, table, name);
      hide Encode, Writable, Used;
      TableRound(b1, name, table, bufLen);
      ShortIsNear(b1 + r.bytes, t.value, items[1..], bufLen);
    }
  }

  lemma {:induction false} UsedWithin(b: seq<byte>, table: seq<Entry>, name: seq<byte>)
    requires TableOk(b, table)
    ensures Used(Some(table), name).Some? ==> Used(Some(table), name).value < |b|
    decreases |name|
  {
    if Lookup(table, name).Some? {
      var i :| 0 <= i < |table| && table[i] == Entry(name, Lookup(table, name).value);
      assert EntryOk(b, table[i]);
    } else {
      var k := FirstDot(name);
      if k < |name| {
        UsedWithin(b, table, name[k + 1..]);
      }
    }
  }

  /** Every name of a message is read back from where it was written, and the parser ends just behind it. */
  lemma {:induction false} MessageRound(b: seq<byte>, table: seq<Entry>, items: seq<Item>, bufLen: nat, k: nat,
      outLen: nat)
    requires NearAll(b, table, items, bufLen)
    requires TableOk(b, table) && forall i :: 0 <= i < |items| ==> Writable(items[i].name)
    requires WriteAll(b, table, items, bufLen).Some? && k < |items| && |items[k].name| < outLen
    ensures var (message, places) := WriteAll(b, table, items, bufLen).value;
            && b <= message && |places| == |items|
            && Parse(message, places[k].0, outLen) == Some((items[k].name, places[k].1))
    decreases |items|
  {
    hide Encode, Parse, Writable;
    var b1, name := b + items[0].before, items[0].name;
    var (r, t) := Encode(name, Some(table), |b1|, bufLen);
    TableLonger(b, table, b1);
    TableRound(b1, name, table, bufLen);
    var b2 := b1 + r.bytes;
    WriteExtends(b2, t.value, items[1..], bufLen);
    var message := WriteAll(b, table, items, bufLen).value.0;
    if k == 0 {
      NameRound(b1, name, Some(table), bufLen, message[|b2|..], outLen);
      assert message == b1 + r.bytes + message[|b2|..];
    } else {
      MessageRound(b2, t.value, items[1..], bufLen, k - 1, outLen);
    }
  }

  lemma {:induction false} WriteExtends(b: seq<byte>, table: seq<Entry>, items: seq<Item>, bufLen: nat)
    requires WriteAll(b, table, items, bufLen).Some?
    ensures var r := WriteAll(b, table, items, bufLen).value; b <= r.0 && |r.1| == |items|
    decreases |items|
  {
    if items != [] {
      var b1 := b + items[0].before;
      var (r, t) := Encode(items[0].name, Some(table), |b1|, bufLen);
      WriteExtends(b1 + r.bytes, if t.Some? then t.value else table, items[1..], bufLen);
    }
  }

  /** The name is empty or ends in a dot, so that its last label is empty. */
  predicate EndsEmpty(name: seq<byte>) {
    name == [] || name[|name| - 1] == DOT
  }

  /** The closing zero of the name lies outside the space given. */
  predicate Overruns(name: seq<byte>, table: Option<seq<Entry>>, j: nat, bufLen: nat) {
    Used(table, name).None? && !EndsEmpty(name) && j + |name| + 1 == bufLen
  }

  /** The closing zero comes unchecked: whatever the name and the table, it is at most one byte too far, and it is
      exactly when no pointer ends the name, no empty label does, and the labels fill the space. */
  lemma {:induction false} EncodedLength(name: seq<byte>, table: Option<seq<Entry>>, j: nat, bufLen: nat)
    requires Encode(name, table, j, bufLen).0.Done?
    ensures var n := |Encode(name, table, j, bufLen).0.bytes|;
            && 0 < n && j + n <= bufLen + 1 && (j + n > bufLen <==> Overruns(name, table, j, bufLen))
            && (Used(table, name).None? ==> n == |name| + if EndsEmpty(name) then 1 else 2)
    decreases |name|
  {
    hide Encode, Used, FirstDot, Noted, EndsEmpty, Lookup;
    var k := FirstDot(name);
    if table.Some? && Lookup(table.value, name).Some? {
      EncodedPointer(name, table, j, bufLen);
    } else {
      EncodeStep(name, table, j, bufLen);
      RestOfName(name, table, j);
      if k < |name| {
        EncodedLength(name[k + 1..], Noted(table, name, j), j + 1 + k, bufLen);
      }
    }
  }

  lemma EncodedPointer(name: seq<byte>, table: Option<seq<Entry>>, j: nat, bufLen: nat)
    requires table.Some? && Lookup(table.value, name).Some? && Encode(name, table, j, bufLen).0.Done?
    ensures |Encode(name, table, j, bufLen).0.bytes| == 2 && j + 2 <= bufLen && Used(table, name).Some?
  {
  }

  /** What ends a name with no entry of its own is what ends the part behind its first dot. */
  lemma RestOfName(name: seq<byte>, table: Option<seq<Entry>>, j: nat)
    requires !(table.Some? && Lookup(table.value, name).Some?)
    ensures var k := FirstDot(name);
            if k < |name| then
              var rest := name[k + 1..];
              Used(table, name) == Used(Noted(table, name, j), rest) && EndsEmpty(name) == EndsEmpty(rest)
            else Used(table, name).None? && (EndsEmpty(name) <==> name == [])
  {
    hide Lookup, Noted;
    var k := FirstDot(name);
    if k < |name| {
      hide FirstDot;
      var rest := name[k + 1..];
      UsedNoted(table, name, j, rest);
      assert rest != [] ==> rest[|rest| - 1] == name[|name| - 1];
    } else {
      assert name != [] ==> name[|name| - 1] in name[..k];
    }
  }

  /** It does so with a table that does not have the name. */
  lemma OverrunWithTable()
    ensures var a: byte := 97; Overruns([a], Some([]), 10, 12) && Encode([a], Some([]), 10, 12).0 == Done([1, a, 0])
  {
    var a: byte := 97;
    assert FirstDot([a]) == 1;
    assert [a][..1] == [a] && [1] + [a] + [0] == [1, a, 0];
  }

  // ---- the writer ----

  /** struct dnslabel_table */
  class DnsLabelTable {
    var labels: seq<Entry>

    constructor ()
      ensures labels == []
    {
      labels := [];
    }

    /** dnslabel_table_get_pos */
    method GetPos(name: seq<byte>) returns (pos: int)
      ensures pos == match Lookup(labels, name) case None => -1 case Some(p) => p
    {
      var i := 0;
      while i < |labels|
        invariant i <= |labels| && Lookup(labels, name) == Lookup(labels[i..], name)
      {
        if name == labels[i].name {
          return labels[i].pos;
        }
        i := i + 1;
      }
      pos := -1;
    }

    /** dnslabel_table_add */
    method Add(name: seq<byte>, pos: nat) returns (r: int)
      modifies this
      ensures labels == WithEntry(old(labels), Entry(name, pos))
      ensures r == if |old(labels)| == MAX_LABELS then -1 else 0
    {
      if |labels| == MAX_LABELS {
        return -1;
      }
      labels := labels + [Entry(name, pos)];
      r := 0;
    }
  }

  function Behind(done: seq<byte>, rest: (Encoding, Option<seq<Entry>>)): (Encoding, Option<seq<Entry>>) {
    (if rest.0.Fail? then rest.0 else Done(done + rest.0.bytes), rest.1)
  }

  function LabelsOf(table: DnsLabelTable?): Option<seq<Entry>>
    reads table
  {
    if table == null then None else Some(table.labels)
  }

  /** Bytes are copied into the buffer, behind what was written since start. */
  method Put(buf: array<byte>, start: nat, j: nat, data: seq<byte>)
    requires start <= j && j + |data| <= buf.Length
    modifies buf
    ensures buf[..start] == old(buf[..start]) && buf[j..j + |data|] == data
    ensures buf[start..j + |data|] == old(buf[start..j]) + data
  {
    forall i | 0 <= i < |data| {
      buf[j + i] := data[i];
    }
  }

  /** What a return value of dnsname_to_labels and the bytes written say of an encoding */
  ghost predicate Outcome(r: int, start: nat, written: seq<byte>, e: Encoding) {
    if e.Fail? then r == e.code else r == start + |e.bytes| && written == e.bytes
  }

  /** dnsname_to_labels: the name goes behind the first start bytes of the buffer. The closing zero is written without a
      look at bufLen, so where it overruns that, the memory must hold one byte more. */
  method NameToLabels(buf: array<byte>, bufLen: nat, start: nat, wholeName: seq<byte>, table: DnsLabelTable?)
    returns (r: int, ghost written: seq<byte>)
    requires start <= bufLen <= buf.Length && NoZero(wholeName)
    requires |wholeName| <= 255 && Overruns(wholeName, LabelsOf(table), start, bufLen) ==> bufLen < buf.Length
    modifies buf, table
    ensures buf[..start] == old(buf[..start])
    ensures r < 0 || (start <= r <= buf.Length && buf[start..r] == written)
    ensures if |wholeName| > 255 then r == -2 && LabelsOf(table) == old(LabelsOf(table))
            else
              var (e, t) := Encode(wholeName, old(LabelsOf(table)), start, bufLen);
              Outcome(r, start, written, e) && LabelsOf(table) == t
  {
    written := [];
    if |wholeName| > 255 {
      return -2, [];
    }
    var j, name := start, wholeName;
    ghost var t := LabelsOf(table);
    ghost var goal, before := Encode(wholeName, t, start, bufLen), buf[..start];
    BehindNone(goal);
    if goal.0.Done? {
      EncodedLength(wholeName, t, start, bufLen);
    }
    hide Encode, Behind, NoZero, FirstDot, Lookup, Pointer, Noted, Overruns, Used;
    var going := true;
    r := 0;
    while going
      invariant start <= j <= bufLen && NoZero(name) && buf[..start] == before && t == LabelsOf(table)
      invariant going ==> buf[start..j] == written && goal == Behind(written, Encode(name, t, j, bufLen))
      invariant !going ==> (r < 0 || (start <= r <= buf.Length && buf[start..r] == written))
      invariant !going ==> Outcome(r, start, written, goal.0) && t == goal.1
      decreases going, |name|
    {
      going, r, j, name, written := WriteLabel(buf, bufLen, start, j, name, table, written, goal);
      t := LabelsOf(table);
    }
  }

  /** One turn of the loop of dnsname_to_labels: a pointer, or one more label */
  method WriteLabel(buf: array<byte>, bufLen: nat, start: nat, at: nat, suffix: seq<byte>, table: DnsLabelTable?,
                    ghost before: seq<byte>, ghost goal: (Encoding, Option<seq<Entry>>))
    returns (going: bool, r: int, j: nat, name: seq<byte>, ghost written: seq<byte>)
    requires start <= at <= bufLen <= buf.Length && NoZero(suffix) && buf[start..at] == before
    requires goal.0.Done? ==> start + |goal.0.bytes| <= buf.Length
    requires goal == Behind(before, Encode(suffix, LabelsOf(table), at, bufLen))
    modifies buf, table
    ensures start <= j <= bufLen && NoZero(name) && buf[..start] == old(buf[..start])
    ensures going ==>
        |name| < |suffix| && buf[start..j] == written &&
            goal == Behind(written, Encode(name, LabelsOf(table), j, bufLen))
    ensures !going ==> (r < 0 || (start <= r <= buf.Length && buf[start..r] == written))
    ensures !going ==> Outcome(r, start, written, goal.0) && LabelsOf(table) == goal.1
  {
    EncodeCases(suffix, LabelsOf(table), at, bufLen, before);
    hide Encode, Behind, NoZero, FirstDot, Lookup, Pointer, Noted;
    going, j, name, written := false, at, suffix, before;
    if table != null {
      var ref := table.GetPos(name);
      if ref >= 0 {
        if j + 2 > bufLen {
          return false, -2, j, name, written;
        }
        Put(buf, start, j, Pointer(ref));
        return false, j + 2, j, name, written + Pointer(ref);
      }
    }
    var k := FirstDot(name);
    if k > 63 {
      return false, -1, j, name, written;
    }
    if j + k + 1 > bufLen {
      return false, -2, j, name, written;
    }
    Note(table, name, j);
    Put(buf, start, j, [k as byte] + name[..k]);
    written := written + ([k as byte] + name[..k]);
    j := j + 1 + k;
    if k == |name| {
      r := Terminate(buf, start, j, k, name);
      return false, r, j, name, written + if k == 0 then [] else [0];
    }
    NoZeroRest(name, k + 1);
    going, r, name := true, 0, name[k + 1..];
  }

  method Note(table: DnsLabelTable?, name: seq<byte>, j: nat)
    modifies table
    ensures LabelsOf(table) == Noted(old(LabelsOf(table)), name, j)
  {
    if table != null {
      var r := table.Add(name, j);
    }
  }

  /** The end of dnsname_to_labels: a zero, unless the last label was empty and its length is that zero already */
  method Terminate(buf: array<byte>, start: nat, end: nat, k: nat, text: seq<byte>) returns (j: nat)
    requires start + 1 + k <= end <= buf.Length && |text| == k < 256 && NoZero(text)
    requires buf[end - 1 - k..end] == [k as byte] + text && (k > 0 ==> end < buf.Length)
    modifies buf
    ensures buf[..start] == old(buf[..start]) && j <= buf.Length
    ensures j == (if k == 0 then end else end + 1)
    ensures buf[start..j] == old(buf[start..end]) + (if k == 0 then [] else [0])
  {
    j := end;
    assert buf[end - 1] == ([k as byte] + text)[k];
    if j == 0 || buf[j - 1] != 0 {
      buf[j] := 0;
      j := j + 1;
    }
  }

  lemma BehindNone(e: (Encoding, Option<seq<Entry>>))
    ensures Behind([], e) == e
  {
    if e.0.Done? {
      assert [] + e.0.bytes == e.0.bytes;
    }
  }

  /** What remains to be written, case by case of the loop */
  lemma EncodeCases(name: seq<byte>, t: Option<seq<Entry>>, j: nat, bufLen: nat, done: seq<byte>)
    ensures var e, k := Behind(done, Encode(name, t, j, bufLen)), FirstDot(name);
            if t.Some? && Lookup(t.value, name).Some? then
              e == if j + 2 > bufLen then (Fail(-2), t) else (Done(done + Pointer(Lookup(t.value, name).value)), t)
            else if k > 63 then e == (Fail(-1), t)
            else if j + k + 1 > bufLen then e == (Fail(-2), t)
            else
              var done' := done + ([k as byte] + name[..k]);
              if k == |name| then e == (Done(done' + if k == 0 then [] else [0]), Noted(t, name, j))
              else e == Behind(done', Encode(name[k + 1..], Noted(t, name, j), j + 1 + k, bufLen))
  {
    EncodeUnfold(name, t, j, bufLen);
    hide Encode, FirstDot, Lookup;
    var k := FirstDot(name);
    if !(t.Some? && Lookup(t.value, name).Some?) && k <= 63 && j + k + 1 <= bufLen {
      var head := [k as byte] + name[..k];
      if k == |name| {
        assert done + (head + [0]) == done + head + [0];
        assert done + head + [] == done + head;
      } else {
        BehindBehind(done, head, Encode(name[k + 1..], Noted(t, name, j), j + 1 + k, bufLen));
      }
    }
  }

  lemma BehindBehind(done: seq<byte>, head: seq<byte>, e: (Encoding, Option<seq<Entry>>))
    ensures Behind(done, Behind(head, e)) == Behind(done + head, e)
  {
    if e.0.Done? {
      assert done + (head + e.0.bytes) == done + head + e.0.bytes;
    }
  }

  lemma EncodeUnfold(name: seq<byte>, t: Option<seq<Entry>>, j: nat, bufLen: nat)
    ensures var k := FirstDot(name);
            Encode(name, t, j, bufLen) ==
            if t.Some? && Lookup(t.value, name).Some? then
              if j + 2 > bufLen then (Fail(-2), t) else (Done(Pointer(Lookup(t.value, name).value)), t)
            else if k > 63 then (Fail(-1), t)
            else if j + k + 1 > bufLen then (Fail(-2), t)
            else
              var head := [k as byte] + name[..k];
              if k == |name| then (Done(if k == 0 then head else head + [0]), Noted(t, name, j))
              else Behind(head, Encode(name[k + 1..], Noted(t, name, j), j + 1 + k, bufLen))
  {
    hide FirstDot, Lookup;
  }
}
