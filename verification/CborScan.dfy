/**
 The structural pre-scan of CBOR payloads. Its explicit stack of owed items is proved to accept
 exactly the encodings of one definite-length item, in the grammar of section 3 of RFC 8949,
 that nests at most 63 non-empty containers or tags.
 */
module CborScan {
  import opened Options
  import opened Bytes
  import Sequences

  const MAX_SCAN_DEPTH: nat := 64

  // ---------------------------------------------------------------- the grammar

  /** An initial byte's major type and additional information, with the argument bytes that follow it. */
  datatype Head = Head(major: nat, info: nat, extra: seq<byte>)

  predicate ValidHead(h: Head) {
    && h.major < 8 && h.info < 28
    && |h.extra| == ExtraWidth(h.info)
  }

  function ExtraWidth(info: nat): nat {
    if info < 24 then 0 else if info == 24 then 1 else if info == 25 then 2 else if info == 26 then 4 else 8
  }

  function BigEndian(s: seq<byte>): nat {
    if s == [] then 0 else 256 * BigEndian(s[..|s| - 1]) + s[|s| - 1]
  }

  function Argument(h: Head): nat {
    if h.info < 24 then h.info else BigEndian(h.extra)
  }

  function EncodeHead(h: Head): seq<byte>
    requires ValidHead(h)
  {
    [h.major * 32 + h.info] + h.extra
  }

  /**
   A data item: a head that stands alone (integers, floats and simple values), a string with its
   bytes, or a container or tag with its items in order; a map's keys and values alternate.
   */
  datatype Item = Plain(head: Head) | Text(head: Head, bytes: seq<byte>) | Nest(head: Head, items: seq<Item>)

  /** How many items a container or tag of this head holds. */
  function Children(h: Head): nat {
    if h.major == 4 then Argument(h) else if h.major == 5 then 2 * Argument(h) else 1
  }

  predicate WellFormed(i: Item) {
    match i
    case Plain(h) => ValidHead(h) && h.major in {0, 1, 7}
    case Text(h, bytes) => ValidHead(h) && h.major in {2, 3} && |bytes| == Argument(h)
    case Nest(h, items) =>
      ValidHead(h) && h.major in {4, 5, 6} && |items| == Children(h) &&
      forall k :: 0 <= k < |items| ==> WellFormed(items[k])
  }

  function Encode(i: Item): seq<byte>
    requires WellFormed(i)
  {
    match i
    case Plain(h) => EncodeHead(h)
    case Text(h, bytes) => EncodeHead(h) + bytes
    case Nest(h, items) => EncodeHead(h) + EncodeAll(items)
  }

  function EncodeAll(items: seq<Item>): seq<byte>
    requires forall k :: 0 <= k < |items| ==> WellFormed(items[k])
  {
    if items == [] then [] else Encode(items[0]) + EncodeAll(items[1..])
  }

  /** The item nests at most `depth` non-empty containers or tags. */
  predicate FitsDepth(i: Item, depth: nat) {
    i.Nest? && i.items != [] ==> depth > 0 && forall k :: 0 <= k < |i.items| ==> FitsDepth(i.items[k], depth - 1)
  }

  /** The bytes are exactly one item of bounded nesting. */
  ghost predicate IsItem(s: seq<byte>) {
    exists i :: WellFormed(i) && FitsDepth(i, MAX_SCAN_DEPTH - 1) && Encode(i) == s
  }

  // ---------------------------------------------------------------- reading a head

  datatype Opening = Opening(head: Head, rest: seq<byte>)

  function OpenHead(s: seq<byte>): (r: Option<Opening>)
    ensures r.Some? ==> |r.value.rest| < |s|
  {
    if s == [] || s[0] % 32 >= 28 || |s| - 1 < ExtraWidth(s[0] % 32) then None
    else
      var width := ExtraWidth(s[0] % 32);
      Some(Opening(Head(s[0] / 32, s[0] % 32, s[1..1 + width]), s[1 + width..]))
  }

  lemma OpenHeadOfEncode(h: Head, t: seq<byte>)
    requires ValidHead(h)
    ensures OpenHead(EncodeHead(h) + t) == Some(Opening(h, t))
  {
    hide ExtraWidth;
    var s := EncodeHead(h) + t;
    assert s[0] == h.major * 32 + h.info;
    assert s[1..1 + |h.extra|] == h.extra;
    assert s[1 + |h.extra|..] == t;
  }

  lemma OpenHeadSound(s: seq<byte>)
    requires OpenHead(s).Some?
    ensures var o := OpenHead(s).value; ValidHead(o.head) && s == EncodeHead(o.head) + o.rest
  {
    hide ExtraWidth;
  }

  // ---------------------------------------------------------------- what a stack of owed items accepts

  predicate AllWellFormed(items: seq<Item>) {
    forall k :: 0 <= k < |items| ==> WellFormed(items[k])
  }

  /** The items serve the agenda: one each, within its depth allowance. */
  ghost predicate Serves(items: seq<Item>, agenda: seq<nat>, s: seq<byte>) {
    && |items| == |agenda| && AllWellFormed(items)
    && (forall k :: 0 <= k < |items| ==> FitsDepth(items[k], agenda[k]))
    && EncodeAll(items) == s
  }

  /** The bytes are exactly one item for each allowance owed, in order. */
  ghost predicate Accepts(s: seq<byte>, agenda: seq<nat>) {
    exists items :: Serves(items, agenda, s)
  }

  lemma {:induction false} EncodeAllJoin(a: seq<Item>, b: seq<Item>)
    requires AllWellFormed(a) && AllWellFormed(b)
    ensures AllWellFormed(a + b) && EncodeAll(a + b) == EncodeAll(a) + EncodeAll(b)
  {
    hide WellFormed, Encode;
    if a == [] {
      Sequences.EmptyJoin(b);
      Sequences.EmptyJoin(EncodeAll(b));
    } else {
      EncodeAllJoin(a[1..], b);
      Sequences.TailOfJoin(a, b);
      Sequences.Associate(Encode(a[0]), EncodeAll(a[1..]), EncodeAll(b));
    }
  }

  lemma EncodeIsNotEmpty(i: Item)
    requires WellFormed(i)
    ensures |Encode(i)| > 0
  {
  }

  /** Every item takes at least one byte. */
  lemma {:induction false} EncodeAllIsLong(items: seq<Item>)
    requires AllWellFormed(items)
    ensures |EncodeAll(items)| >= |items|
  {
    hide WellFormed, Encode;
    if items != [] {
      EncodeIsNotEmpty(items[0]);
      EncodeAllIsLong(items[1..]);
    }
  }

  lemma AgendaNeedsBytes(s: seq<byte>, agenda: seq<nat>)
    requires Accepts(s, agenda)
    ensures |s| >= |agenda|
  {
    hide EncodeAll;
    var items :| Serves(items, agenda, s);
    EncodeAllIsLong(items);
  }

  function Rest(i: Item): seq<byte>
    requires WellFormed(i)
  {
    match i
    case Plain(_) => []
    case Text(_, bytes) => bytes
    case Nest(_, items) => EncodeAll(items)
  }

  /** The head of the bytes is the head of the first item that serves them. */
  lemma FirstItem(items: seq<Item>, a: nat, agenda: seq<nat>, s: seq<byte>)
    requires Serves(items, [a] + agenda, s)
    ensures items != [] && WellFormed(items[0]) && FitsDepth(items[0], a)
    ensures AllWellFormed(items[1..])
    ensures Serves(items[1..], agenda, EncodeAll(items[1..]))
    ensures OpenHead(s) == Some(Opening(items[0].head, Rest(items[0]) + EncodeAll(items[1..])))
  {
    hide WellFormed, FitsDepth;
    var i, later := items[0], items[1..];
    assert ([a] + agenda)[0] == a && ([a] + agenda)[1..] == agenda;
    FirstEncoded(i);
    Sequences.Associate(EncodeHead(i.head), Rest(i), EncodeAll(later));
    OpenHeadOfEncode(i.head, Rest(i) + EncodeAll(later));
    assert forall k :: 0 <= k < |later| ==> later[k] == items[k + 1] && agenda[k] == ([a] + agenda)[k + 1];
  }

  lemma FirstEncoded(i: Item)
    requires WellFormed(i)
    ensures ValidHead(i.head) && Encode(i) == EncodeHead(i.head) + Rest(i)
  {
    if i.Plain? {
      Sequences.EmptyJoin(EncodeHead(i.head));
    }
  }

  /** Putting an item in front of those that serve an agenda serves the longer agenda. */
  lemma ServeFirst(i: Item, a: nat, items: seq<Item>, agenda: seq<nat>, s: seq<byte>, t: seq<byte>)
    requires WellFormed(i) && FitsDepth(i, a) && Serves(items, agenda, t)
    requires OpenHead(s) == Some(Opening(i.head, Rest(i) + t))
    ensures Accepts(s, [a] + agenda)
  {
    hide WellFormed, FitsDepth;
    var all := [i] + items;
    assert all[1..] == items;
    FirstEncoded(i);
    OpenHeadSound(s);
    Sequences.Associate(EncodeHead(i.head), Rest(i), t);
    assert Serves(all, [a] + agenda, s);
  }

  /** Without a readable head nothing is accepted. */
  lemma NoHeadNoItem(s: seq<byte>, a: nat, agenda: seq<nat>)
    requires OpenHead(s).None?
    ensures !Accepts(s, [a] + agenda)
  {
    hide Serves, OpenHead;
    forall items
      ensures !Serves(items, [a] + agenda, s)
    {
      if Serves(items, [a] + agenda, s) {
        FirstItem(items, a, agenda, s);
      }
    }
  }

  /** Integers, floats and simple values are complete with their head. */
  lemma PlainStep(s: seq<byte>, a: nat, agenda: seq<nat>)
    requires OpenHead(s).Some? && OpenHead(s).value.head.major in {0, 1, 7}
    ensures Accepts(s, [a] + agenda) <==> Accepts(OpenHead(s).value.rest, agenda)
  {
    hide Serves, OpenHead, EncodeAll;
    var o := OpenHead(s).value;
    if Accepts(s, [a] + agenda) {
      var items :| Serves(items, [a] + agenda, s);
      FirstItem(items, a, agenda, s);
      Sequences.EmptyJoin(EncodeAll(items[1..]));
    }
    if Accepts(o.rest, agenda) {
      var items :| Serves(items, agenda, o.rest);
      OpenHeadSound(s);
      Sequences.EmptyJoin(o.rest);
      ServeFirst(Plain(o.head), a, items, agenda, s, o.rest);
    }
  }

  /** A string is complete with the bytes its argument counts. */
  lemma TextStep(s: seq<byte>, a: nat, agenda: seq<nat>)
    requires OpenHead(s).Some? && OpenHead(s).value.head.major in {2, 3}
    ensures var o := OpenHead(s).value; var n := Argument(o.head);
            Accepts(s, [a] + agenda) <==> n <= |o.rest| && Accepts(o.rest[n..], agenda)
  {
    hide Serves, OpenHead, EncodeAll, Argument;
    var o := OpenHead(s).value;
    var n := Argument(o.head);
    if Accepts(s, [a] + agenda) {
      var items :| Serves(items, [a] + agenda, s);
      FirstItem(items, a, agenda, s);
      assert o.rest[n..] == EncodeAll(items[1..]);
    }
    if n <= |o.rest| && Accepts(o.rest[n..], agenda) {
      var items :| Serves(items, agenda, o.rest[n..]);
      OpenHeadSound(s);
      assert o.rest == o.rest[..n] + o.rest[n..];
      ServeFirst(Text(o.head, o.rest[..n]), a, items, agenda, s, o.rest[n..]);
    }
  }

  function Repeat(n: nat, a: nat): (r: seq<nat>)
    ensures |r| == n
  {
    seq(n, _ => a)
  }

  /** A container or tag is owed its items next, one level deeper; an empty one owes nothing. */
  lemma NestStep(s: seq<byte>, a: nat, agenda: seq<nat>)
    requires OpenHead(s).Some? && OpenHead(s).value.head.major in {4, 5, 6}
    ensures var o := OpenHead(s).value; var n := Children(o.head);
            Accepts(s, [a] + agenda) <==>
              if n == 0 then Accepts(o.rest, agenda) else a > 0 && Accepts(o.rest, Repeat(n, a - 1) + agenda)
  {
    hide OpenHead, EncodeAll, Argument, Children, Serves, FitsDepth, WellFormed;
    var o := OpenHead(s).value;
    var n := Children(o.head);
    if Accepts(s, [a] + agenda) {
      var items :| Serves(items, [a] + agenda, s);
      FirstItem(items, a, agenda, s);
      NestOpens(items[0], a, items[1..], agenda);
    }
    if n == 0 && Accepts(o.rest, agenda) {
      var items :| Serves(items, agenda, o.rest);
      ServesFacts(items, agenda, o.rest);
      EmptyEncoding();
      Sequences.EmptyJoin(o.rest);
      NestCloses(s, [], a, items, agenda);
    }
    if n > 0 && a > 0 && Accepts(o.rest, Repeat(n, a - 1) + agenda) {
      var items :| Serves(items, Repeat(n, a - 1) + agenda, o.rest);
      ServesFacts(items, Repeat(n, a - 1) + agenda, o.rest);
      ServesSplit(items, Repeat(n, a - 1), agenda, o.rest);
      NestCloses(s, items[..n], a, items[n..], agenda);
    }
  }

  /** The children of a nested item, then the later items, serve what the item owes. */
  lemma NestOpens(i: Item, a: nat, later: seq<Item>, agenda: seq<nat>)
    requires WellFormed(i) && i.head.major in {4, 5, 6} && FitsDepth(i, a)
    requires AllWellFormed(later) && Serves(later, agenda, EncodeAll(later))
    ensures var n := Children(i.head);
            if n == 0 then Accepts(Rest(i) + EncodeAll(later), agenda)
            else a > 0 && Accepts(Rest(i) + EncodeAll(later), Repeat(n, a - 1) + agenda)
  {
    hide EncodeAll, Argument, Children;
    if i.items == [] {
      EmptyEncoding();
      Sequences.EmptyJoin(EncodeAll(later));
    } else {
      EncodeAllJoin(i.items, later);
      assert Serves(i.items + later, Repeat(|i.items|, a - 1) + agenda, Rest(i) + EncodeAll(later));
    }
  }

  lemma ServesFacts(items: seq<Item>, agenda: seq<nat>, s: seq<byte>)
    requires Serves(items, agenda, s)
    ensures |items| == |agenda| && AllWellFormed(items) && EncodeAll(items) == s
  {
  }

  lemma EmptyEncoding()
    ensures EncodeAll([]) == []
  {
  }

  lemma ServesSplit(items: seq<Item>, first: seq<nat>, agenda: seq<nat>, s: seq<byte>)
    requires Serves(items, first + agenda, s)
    ensures |items| == |first| + |agenda|
    ensures var x, y := items[..|first|], items[|first|..];
            && AllWellFormed(x) && AllWellFormed(y)
            && Serves(x, first, EncodeAll(x)) && Serves(y, agenda, EncodeAll(y))
            && s == EncodeAll(x) + EncodeAll(y)
  {
    hide EncodeAll, FitsDepth, WellFormed;
    var n := |first|;
    var x, y := items[..n], items[n..];
    forall k | 0 <= k < |x|
      ensures WellFormed(x[k]) && FitsDepth(x[k], first[k])
    {
      assert x[k] == items[k] && first[k] == (first + agenda)[k];
    }
    forall k | 0 <= k < |y|
      ensures WellFormed(y[k]) && FitsDepth(y[k], agenda[k])
    {
      assert y[k] == items[n + k] && agenda[k] == (first + agenda)[n + k];
    }
    assert items == x + y;
    EncodeAllJoin(x, y);
  }

  /** Items that serve what a nested head owes make up a nested item. */
  lemma NestCloses(s: seq<byte>, children: seq<Item>, a: nat, later: seq<Item>, agenda: seq<nat>)
    requires OpenHead(s).Some? && OpenHead(s).value.head.major in {4, 5, 6}
    requires |children| == Children(OpenHead(s).value.head)
    requires AllWellFormed(children) && AllWellFormed(later)
    requires children != [] ==> a > 0 && Serves(children, Repeat(|children|, a - 1), EncodeAll(children))
    requires Serves(later, agenda, EncodeAll(later))
    requires OpenHead(s).value.rest == EncodeAll(children) + EncodeAll(later)
    ensures Accepts(s, [a] + agenda)
  {
    hide EncodeAll, Argument, Children, OpenHead;
    var h := OpenHead(s).value.head;
    OpenHeadSound(s);
    var i := Nest(h, children);
    ServeFirst(i, a, later, agenda, s, EncodeAll(later));
  }

  // ---------------------------------------------------------------- the scanner

  const WORD: nat := 0x1_0000_0000_0000_0000

  /** The allowances owed by a stack of counts; the deepest open container is served first. */
  function Agenda(stack: seq<nat>): seq<nat>
    requires |stack| <= MAX_SCAN_DEPTH
  {
    if stack == [] then [] else
      var n := |stack| - 1;
      Repeat(stack[n], MAX_SCAN_DEPTH - |stack|) + Agenda(stack[..n])
  }

  lemma AgendaPops(stack: seq<nat>)
    requires 0 < |stack| <= MAX_SCAN_DEPTH && stack[|stack| - 1] == 0
    ensures Agenda(stack) == Agenda(stack[..|stack| - 1])
  {
    Sequences.EmptyJoin(Agenda(stack[..|stack| - 1]));
  }

  lemma AgendaTakes(stack: seq<nat>)
    requires 0 < |stack| <= MAX_SCAN_DEPTH && stack[|stack| - 1] > 0
    ensures var n := |stack| - 1;
            Agenda(stack) == [MAX_SCAN_DEPTH - |stack|] + Agenda(stack[n := stack[n] - 1])
  {
    var n := |stack| - 1;
    var later := stack[n := stack[n] - 1];
    assert later[..n] == stack[..n];
    var a := MAX_SCAN_DEPTH - |stack|;
    assert Repeat(stack[n], a) == [a] + Repeat(stack[n] - 1, a);
    Sequences.Associate([a], Repeat(stack[n] - 1, a), Agenda(stack[..n]));
  }

  lemma AgendaPushes(stack: seq<nat>, n: nat)
    requires |stack| < MAX_SCAN_DEPTH
    ensures Agenda(stack + [n]) == Repeat(n, MAX_SCAN_DEPTH - |stack| - 1) + Agenda(stack)
  {
    assert (stack + [n])[..|stack|] == stack;
  }

  lemma AgendaStarts(s: seq<byte>)
    ensures IsItem(s) <==> Accepts(s, Agenda([1]))
  {
    hide Encode, WellFormed, FitsDepth;
    AgendaPushes([], 1);
    assert [] + [1] == [1];
    Sequences.EmptyJoin(Repeat(1, MAX_SCAN_DEPTH - 1));
    if IsItem(s) {
      var i :| WellFormed(i) && FitsDepth(i, MAX_SCAN_DEPTH - 1) && Encode(i) == s;
      OneEncoded(i);
      assert Serves([i], Agenda([1]), s);
    }
    if Accepts(s, Agenda([1])) {
      var items :| Serves(items, Agenda([1]), s);
      assert items == [items[0]];
      OneEncoded(items[0]);
    }
  }

  lemma OneEncoded(i: Item)
    requires WellFormed(i)
    ensures EncodeAll([i]) == Encode(i)
  {
    assert [i][1..] == [];
    Sequences.EmptyJoin(Encode(i));
  }

  lemma AgendaEnds(s: seq<byte>)
    ensures Accepts(s, Agenda([])) <==> s == []
  {
    if s == [] {
      assert Serves([], [], s);
    }
  }

  lemma {:induction false} BigEndianFits(s: seq<byte>)
    ensures BigEndian(s) < Pow256(|s|)
  {
    if s != [] {
      BigEndianFits(s[..|s| - 1]);
    }
  }

  lemma ArgumentFits(s: seq<byte>)
    requires |s| <= 8
    ensures BigEndian(s) < WORD
  {
    BigEndianFits(s);
    WordFitsEightBytes();
    PowIsMonotone(|s|, 8);
  }

  lemma {:induction false} PowIsMonotone(m: nat, n: nat)
    requires m <= n
    ensures Pow256(m) <= Pow256(n)
  {
    if m < n {
      PowIsMonotone(m, n - 1);
    }
  }

  /** Read the argument bytes; the accumulated word never exceeds 64 bits. */
  method ReadArgument(data: seq<byte>, start: nat, width: nat) returns (argument: nat)
    requires start + width <= |data| && width <= 8
    ensures argument == BigEndian(data[start..start + width]) < WORD
  {
    argument := 0;
    for i := 0 to width
      invariant argument == BigEndian(data[start..start + i]) < WORD
    {
      assert data[start..start + i + 1][..i] == data[start..start + i];
      ArgumentFits(data[start..start + i + 1]);
      argument := argument * 256 + data[start + i];
    }
  }

  /** Read one initial byte and its argument. */
  method ReadHead(data: seq<byte>, start: nat) returns (ok: bool, major: nat, argument: nat, pos: nat)
    requires start <= |data|
    ensures ok <==> OpenHead(data[start..]).Some?
    ensures ok ==> var o := OpenHead(data[start..]).value;
              && start < pos <= |data| && o.rest == data[pos..] && major < 8
              && major == o.head.major && argument == Argument(o.head) < WORD
  {
    major, argument, pos := 0, 0, start;
    if start >= |data| {
      return false, major, argument, pos;
    }
    var initial := data[start];
    var info := initial % 32;
    major := initial / 32;
    pos := start + 1;
    argument := info;
    if info >= 28 {
      return false, major, argument, pos;
    }
    if info >= 24 {
      var width := ExtraWidth(info);
      if |data| - pos < width {
        return false, major, argument, pos;
      }
      argument := ReadArgument(data, pos, width);
      assert data[start..][1..1 + width] == data[pos..pos + width];
      pos := pos + width;
    }
    ok := true;
  }

  /** A count larger than the bytes left can never be served. */
  lemma CountIsImpossible(s: seq<byte>, n: nat, a: nat, agenda: seq<nat>)
    requires n > |s|
    ensures !Accepts(s, Repeat(n, a) + agenda)
  {
    if Accepts(s, Repeat(n, a) + agenda) {
      AgendaNeedsBytes(s, Repeat(n, a) + agenda);
    }
  }

  /**
   The scan itself: a stack of items still owed per open container. It accepts exactly the
   encodings of one bounded item; its early refusals lose no item, and neither the argument nor
   the doubled map count leaves 64 bits.
   */
  method StructurallyBounded(data: seq<byte>) returns (ok: bool)
    requires |data| < WORD
    ensures ok <==> IsItem(data)
  {
    hide IsItem, Accepts, Agenda, OpenHead, Argument;
    var pos := 0;
    var remaining: seq<nat> := [1];
    AgendaStarts(data);
    assert data[0..] == data;
    while remaining != []
      invariant pos <= |data| && |remaining| <= MAX_SCAN_DEPTH
      invariant IsItem(data) <==> Accepts(data[pos..], Agenda(remaining))
      decreases 2 * (|data| - pos) + |remaining|
    {
      var n := |remaining| - 1;
      if remaining[n] == 0 {
        AgendaPops(remaining);
        remaining := remaining[..n];
        continue;
      }
      AgendaTakes(remaining);
      remaining := remaining[n := remaining[n] - 1];
      ghost var a, agenda, s := MAX_SCAN_DEPTH - |remaining|, Agenda(remaining), data[pos..];
      var readable, major, argument, next := ReadHead(data, pos);
      if !readable {
        NoHeadNoItem(s, a, agenda);
        return false;
      }
      pos := next;
      var left := |data| - pos;
      if major == 2 || major == 3 {
        TextStep(s, a, agenda);
        if argument > left {
          return false;
        }
        assert data[pos..][argument..] == data[pos + argument..];
        pos := pos + argument;
      } else if major == 4 || major == 5 || major == 6 {
        NestStep(s, a, agenda);
        var count := if major == 4 then argument else if major == 5 then argument * 2 else 1;
        if (major == 4 && argument > left) || (major == 5 && argument > left / 2) {
          if a > 0 {
            CountIsImpossible(data[pos..], count, a - 1, agenda);
          }
          return false;
        }
        assert count < WORD;
        if count > 0 {
          if |remaining| < MAX_SCAN_DEPTH {
            AgendaPushes(remaining, count);
          }
          remaining := remaining + [count];
        }
        if |remaining| > MAX_SCAN_DEPTH {
          return false;
        }
      } else {
        PlainStep(s, a, agenda);
      }
    }
    AgendaEnds(data[pos..]);
    return pos == |data|;
  }

  // ---------------------------------------------------------------- the grammar is unambiguous

  /** No encoding is a proper prefix of another: bytes that start with an item start with one item only. */
  lemma {:induction false} EncodingIsPrefixFree(x: Item, y: Item, s: seq<byte>, t: seq<byte>)
    requires WellFormed(x) && WellFormed(y) && Encode(x) + s == Encode(y) + t
    ensures x == y && s == t
    decreases x, 1
  {
    FirstEncoded(x);
    FirstEncoded(y);
    Sequences.Associate(EncodeHead(x.head), Rest(x), s);
    Sequences.Associate(EncodeHead(y.head), Rest(y), t);
    OpenHeadOfEncode(x.head, Rest(x) + s);
    OpenHeadOfEncode(y.head, Rest(y) + t);
    hide OpenHead, EncodeHead, Argument;
    if x.Nest? {
      EncodingsArePrefixFree(x.items, y.items, s, t);
    } else if x.Text? {
      assert (x.bytes + s)[..|x.bytes|] == x.bytes && (y.bytes + t)[..|y.bytes|] == y.bytes;
      assert (x.bytes + s)[|x.bytes|..] == s && (y.bytes + t)[|y.bytes|..] == t;
    } else {
      Sequences.EmptyJoin(s);
      Sequences.EmptyJoin(t);
    }
  }

  lemma {:induction false} EncodingsArePrefixFree(xs: seq<Item>, ys: seq<Item>, s: seq<byte>, t: seq<byte>)
    requires AllWellFormed(xs) && AllWellFormed(ys) && |xs| == |ys| && EncodeAll(xs) + s == EncodeAll(ys) + t
    ensures xs == ys && s == t
    decreases xs, 0
  {
    hide Encode, WellFormed;
    if xs == [] {
      Sequences.EmptyJoin(s);
      Sequences.EmptyJoin(t);
    } else {
      Sequences.Associate(Encode(xs[0]), EncodeAll(xs[1..]), s);
      Sequences.Associate(Encode(ys[0]), EncodeAll(ys[1..]), t);
      EncodingIsPrefixFree(xs[0], ys[0], EncodeAll(xs[1..]) + s, EncodeAll(ys[1..]) + t);
      EncodingsArePrefixFree(xs[1..], ys[1..], s, t);
      assert xs == [xs[0]] + xs[1..] && ys == [ys[0]] + ys[1..];
    }
  }
}
