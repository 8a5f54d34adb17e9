/** The accepted encodings by their bytes, as section 3 of RFC 8949 assigns them, and the exact depth limit. */
module CborMeaning {
  import opened Bytes
  import Options
  import opened CborScan

  lemma OneItemOwed(s: seq<byte>)
    ensures IsItem(s) <==> Accepts(s, [63])
    ensures Accepts(s, []) <==> s == []
  {
    hide IsItem, Accepts;
    AgendaStarts(s);
    AgendaEnds(s);
    AgendaPushes([], 1);
    assert Agenda([1]) == Agenda([] + [1]) == [63];
  }

  /** The bytes after an initial byte that hold its argument: 1, 2, 4 or 8 of them from 24 on. */
  function ArgumentBytes(info: nat): nat {
    if info == 24 then 1 else if info == 25 then 2 else if info == 26 then 4 else if info == 27 then 8 else 0
  }

  /** Initial bytes with additional information 28 to 31, reserved or indefinite, start no item. */
  lemma ReservedIsNoItem(s: seq<byte>)
    requires s == [] || s[0] % 32 >= 28
    ensures !IsItem(s)
  {
    OneItemOwed(s);
    assert [63] + [] == [63];
    NoHeadNoItem(s, 63, []);
  }

  /** An integer, simple value or float ends with its argument. */
  lemma PlainLength(s: seq<byte>)
    requires s != [] && s[0] % 32 < 28 && (s[0] < 64 || s[0] >= 224)
    ensures IsItem(s) <==> |s| == 1 + ArgumentBytes(s[0] % 32)
  {
    hide IsItem, Accepts;
    OneItemOwed(s);
    assert [63] + [] == [63];
    if |s| - 1 < ArgumentBytes(s[0] % 32) {
      NoHeadNoItem(s, 63, []);
    } else {
      PlainStep(s, 63, []);
      OneItemOwed(s[1 + ArgumentBytes(s[0] % 32)..]);
    }
  }

  /** A string ends with the bytes that its length counts, the length in the initial byte or big-endian after it. */
  lemma StringLength(s: seq<byte>)
    requires s != [] && 64 <= s[0] < 128
    ensures s[0] % 32 < 24 ==> (IsItem(s) <==> |s| == 1 + s[0] % 32)
    ensures s[0] % 32 == 24 ==> (IsItem(s) <==> |s| >= 2 && |s| == 2 + s[1] as int)
    ensures s[0] % 32 == 25 ==> (IsItem(s) <==> |s| >= 3 && |s| == 3 + 256 * (s[1] as int) + s[2] as int)
  {
    hide IsItem, Accepts;
    OneItemOwed(s);
    assert [63] + [] == [63];
    var width := ArgumentBytes(s[0] % 32);
    if s[0] % 32 < 26 {
      if |s| - 1 < width {
        NoHeadNoItem(s, 63, []);
      } else {
        TextStep(s, 63, []);
        var extra, rest := s[1..1 + width], s[1 + width..];
        TwoBytes(extra);
        var n := Argument(OpenHead(s).value.head);
        if n <= |rest| {
          OneItemOwed(rest[n..]);
        }
      }
    }
  }

  lemma TwoBytes(s: seq<byte>)
    ensures |s| == 1 ==> BigEndian(s) == s[0]
    ensures |s| == 2 ==> BigEndian(s) == 256 * (s[0] as int) + s[1] as int
  {
    if |s| == 1 {
      assert BigEndian(s[..0]) == 0;
    } else if |s| == 2 {
      assert s[..1][..0] == [];
      assert BigEndian(s[..1]) == s[0];
    }
  }

  /**
   A short array owes its count of items, a short map twice its count and a tag one, each a level
   deeper than the allowance; an empty container owes nothing.
   */
  lemma ContainerOwes(n: nat, s: seq<byte>, a: nat, agenda: seq<nat>)
    requires n < 24
    ensures Accepts([0x80 + n] + s, [a] + agenda) <==>
              if n == 0 then Accepts(s, agenda) else a > 0 && Accepts(s, Repeat(n, a - 1) + agenda)
    ensures Accepts([0xa0 + n] + s, [a] + agenda) <==>
              if n == 0 then Accepts(s, agenda) else a > 0 && Accepts(s, Repeat(2 * n, a - 1) + agenda)
    ensures Accepts([0xc0 + n] + s, [a] + agenda) <==> a > 0 && Accepts(s, [a - 1] + agenda)
  {
    hide Accepts;
    ShortHead(0x80 + n, s);
    NestStep([0x80 + n] + s, a, agenda);
    ShortHead(0xa0 + n, s);
    NestStep([0xa0 + n] + s, a, agenda);
    ShortHead(0xc0 + n, s);
    NestStep([0xc0 + n] + s, a, agenda);
    if a > 0 {
      assert Repeat(1, a - 1) == [a - 1];
    }
  }

  lemma ShortHead(initial: byte, s: seq<byte>)
    requires initial % 32 < 24
    ensures OpenHead([initial] + s) == Options.Some(Opening(Head(initial / 32, initial % 32, []), s))
  {
    var t := [initial] + s;
    assert t[0] == initial && t[1..] == s && t[1..1] == [];
    assert OpenHead(t).value.head.extra == [];
  }

  /** An integer inside `n` one-element arrays. */
  function Nested(n: nat): seq<byte> {
    if n == 0 then [0] else [0x81] + Nested(n - 1)
  }

  lemma {:induction false} NestedFits(n: nat, a: nat)
    ensures Accepts(Nested(n), [a]) <==> n <= a
  {
    hide Accepts;
    assert [a] + [] == [a];
    if n == 0 {
      PlainStep(Nested(0), a, []);
      OneItemOwed(Nested(0)[1..]);
    } else {
      ContainerOwes(1, Nested(n - 1), a, []);
      if a > 0 {
        NestedFits(n - 1, a - 1);
        assert Repeat(1, a - 1) + [] == [a - 1];
      }
    }
  }

  /** Sixty-three levels are accepted and a sixty-fourth is not. */
  lemma DepthLimitIsExact(n: nat)
    ensures IsItem(Nested(n)) <==> n <= 63
  {
    OneItemOwed(Nested(n));
    NestedFits(n, 63);
  }
}
