/**
 The schema-1 token scanner and the distinct-token collector. The scanner is proved to hand its
 callback exactly the maximal runs of token bytes, lowercased and cut, stopping when told to.
 */
module Tokenizer {
  import opened Bytes
  import Sequences

  const TOKEN_BYTES: nat := 96

  type Token = seq<byte>

  predicate IsTokenByte(b: byte) {
    || b >= 0x80
    || 97 <= b <= 122 || 65 <= b <= 90 || 48 <= b <= 57
    || b == 39 || b == 45 || b == 95
  }

  function LowerByte(b: byte): byte {
    if 65 <= b <= 90 then b - 65 + 97 else b
  }

  function Lower(s: seq<byte>): (r: seq<byte>)
    ensures |r| == |s|
  {
    seq(|s|, i requires 0 <= i < |s| => LowerByte(s[i]))
  }

  /** A token keeps its first 95 bytes; the buffer's last byte is the terminator's. */
  function Cut(s: seq<byte>): seq<byte> {
    if |s| < TOKEN_BYTES then s else s[..TOKEN_BYTES - 1]
  }

  // ---------------------------------------------------------------- runs and tokens

  /** A stretch of token bytes that cannot be extended on either side. */
  predicate MaximalRun(s: seq<byte>, start: nat, end: nat) {
    && start < end <= |s|
    && (forall i :: start <= i < end ==> IsTokenByte(s[i]))
    && (start > 0 ==> !IsTokenByte(s[start - 1]))
    && (end < |s| ==> !IsTokenByte(s[end]))
  }

  datatype Run = Run(start: nat, end: nat)

  function RunEnd(s: seq<byte>, k: nat): (end: nat)
    requires k <= |s|
    ensures k <= end <= |s|
    ensures forall i :: k <= i < end ==> IsTokenByte(s[i])
    ensures end < |s| ==> !IsTokenByte(s[end])
    decreases |s| - k
  {
    if k == |s| || !IsTokenByte(s[k]) then k else RunEnd(s, k + 1)
  }

  function Runs(s: seq<byte>, k: nat): seq<Run>
    requires k <= |s|
    decreases |s| - k
  {
    if k == |s| then []
    else if !IsTokenByte(s[k]) then Runs(s, k + 1)
    else [Run(k, RunEnd(s, k))] + Runs(s, RunEnd(s, k))
  }

  function TokenOf(s: seq<byte>, r: Run): Token
    requires r.start <= r.end <= |s|
  {
    Cut(Lower(s[r.start..r.end]))
  }

  /**
   A token is as long as its run, up to 95 bytes; no byte of it is a capital letter, and each is the
   byte of the text, or the small letter of it.
   */
  lemma TokenBytes(s: seq<byte>, r: Run, i: nat)
    requires r.start <= r.end <= |s|
    ensures |TokenOf(s, r)| == if r.end - r.start <= 95 then r.end - r.start else 95
    ensures i < |TokenOf(s, r)| ==>
              var t, b := TokenOf(s, r)[i], s[r.start + i];
              && !('A' as int <= t <= 'Z' as int)
              && ('A' as int <= b <= 'Z' as int ==> t - 'a' as int == b - 'A' as int)
              && (!('A' as int <= b <= 'Z' as int) ==> t == b)
  {
  }

  /** Letters, digits, the apostrophe, the hyphen, the underscore, and every byte outside ASCII. */
  lemma TokenByteIff(b: byte)
    ensures IsTokenByte(b) <==>
              || b > 127
              || (b as char) in "abcdefghijklmnopqrstuvwxyz"
              || (b as char) in "ABCDEFGHIJKLMNOPQRSTUVWXYZ"
              || (b as char) in "0123456789'-_"
  {
  }

  function TokensFrom(s: seq<byte>, k: nat): seq<Token>
    requires k <= |s|
    decreases |s| - k
  {
    if k == |s| then []
    else if !IsTokenByte(s[k]) then TokensFrom(s, k + 1)
    else [TokenOf(s, Run(k, RunEnd(s, k)))] + TokensFrom(s, RunEnd(s, k))
  }

  function Tokens(s: seq<byte>): seq<Token> {
    TokensFrom(s, 0)
  }

  lemma {:induction false} RunsAreMaximal(s: seq<byte>, k: nat, i: nat, j: nat)
    requires k <= |s| && (k == 0 || k == |s| || !IsTokenByte(s[k]) || !IsTokenByte(s[k - 1]))
    ensures Run(i, j) in Runs(s, k) <==> i >= k && MaximalRun(s, i, j)
    decreases |s| - k
  {
    hide IsTokenByte;
    if k < |s| {
      if !IsTokenByte(s[k]) {
        RunsAreMaximal(s, k + 1, i, j);
      } else {
        var end := RunEnd(s, k);
        RunsAreMaximal(s, end, i, j);
        assert Run(i, j) in Runs(s, k) <==> Run(i, j) == Run(k, end) || Run(i, j) in Runs(s, end);
        if MaximalRun(s, i, j) && k <= i < end {
          RunFillsItsPlace(s, k, end, i, j);
        }
      }
    }
  }

  /** A maximal run that starts inside another is that other. */
  lemma RunFillsItsPlace(s: seq<byte>, k: nat, end: nat, i: nat, j: nat)
    requires k <= i < end <= |s| && MaximalRun(s, i, j)
    requires forall x :: k <= x < end ==> IsTokenByte(s[x])
    requires end < |s| ==> !IsTokenByte(s[end])
    ensures i == k && j == end
  {
  }

  lemma RunsUnfold(s: seq<byte>, k: nat)
    requires k <= |s|
    ensures k == |s| ==> Runs(s, k) == [] && TokensFrom(s, k) == []
    ensures k < |s| && !IsTokenByte(s[k]) ==> Runs(s, k) == Runs(s, k + 1) && TokensFrom(s, k) == TokensFrom(s, k + 1)
    ensures k < |s| && IsTokenByte(s[k]) ==>
              var r := Run(k, RunEnd(s, k));
              Runs(s, k) == [r] + Runs(s, r.end) && TokensFrom(s, k) == [TokenOf(s, r)] + TokensFrom(s, r.end)
  {
    hide IsTokenByte, TokenOf;
  }

  /** The scanned runs are all the maximal runs and nothing else, in order, and each gives one token. */
  lemma {:induction false} TokensAreTheRuns(s: seq<byte>, k: nat)
    requires k <= |s|
    ensures |TokensFrom(s, k)| == |Runs(s, k)|
    ensures forall n :: 0 <= n < |Runs(s, k)| ==>
              var r := Runs(s, k)[n];
              k <= r.start <= r.end <= |s| && TokensFrom(s, k)[n] == TokenOf(s, r)
    ensures forall n :: 0 <= n < |Runs(s, k)| - 1 ==> Runs(s, k)[n].end < Runs(s, k)[n + 1].start
    decreases |s| - k
  {
    hide IsTokenByte, TokenOf, Runs, TokensFrom;
    if k == |s| {
      RunsUnfold(s, k);
    } else {
      RunsUnfold(s, k);
      if !IsTokenByte(s[k]) {
        TokensAreTheRuns(s, k + 1);
      } else {
        var end := RunEnd(s, k);
        TokensAreTheRuns(s, end);
        RunsUnfold(s, end);
        if end < |s| {
          TokensAreTheRuns(s, end + 1);
        }
      }
    }
  }

  // ---------------------------------------------------------------- the callback

  /** Handing tokens to a callback until it says stop. */
  function FoldUntil<S>(tokens: seq<Token>, state: S, emit: (S, Token) -> (S, bool)): S
    decreases |tokens|
  {
    if tokens == [] then state else
      var (next, go) := emit(state, tokens[0]);
      if go then FoldUntil(tokens[1..], next, emit) else next
  }

  /** A C string ends at its first zero byte. */
  function CString(text: seq<byte>): seq<byte> {
    if text == [] || text[0] == 0 then [] else [text[0]] + CString(text[1..])
  }

  lemma {:induction false} CStringEnds(text: seq<byte>)
    ensures var c := CString(text);
            && |c| <= |text| && c == text[..|c|]
            && (forall i :: 0 <= i < |c| ==> c[i] != 0)
            && (|c| < |text| ==> text[|c|] == 0)
  {
    if text != [] && text[0] != 0 {
      CStringEnds(text[1..]);
    }
  }

  lemma RunEndIs(s: seq<byte>, k: nat, end: nat)
    requires k <= end <= |s| && (forall i :: k <= i < end ==> IsTokenByte(s[i]))
    requires end < |s| ==> !IsTokenByte(s[end])
    ensures RunEnd(s, k) == end
  {
    hide IsTokenByte;
    var e := RunEnd(s, k);
  }

  lemma CutGrows(s: seq<byte>, b: byte)
    ensures Cut(Lower(s + [b])) == if |s| + 1 < TOKEN_BYTES then Cut(Lower(s)) + [LowerByte(b)] else Cut(Lower(s))
  {
    hide LowerByte;
    assert Lower(s + [b]) == Lower(s) + [LowerByte(b)];
  }

  /**
   The scanner. Whatever the callback does, it sees the tokens of the text in order and no token
   after the one it refused.
   */
  method Scan<S>(text: seq<byte>, state: S, emit: (S, Token) -> (S, bool)) returns (final: S)
    ensures final == FoldUntil(Tokens(CString(text)), state, emit)
  {
    hide IsTokenByte, LowerByte, Cut, Lower, CString, RunEnd, TokensFrom, FoldUntil;
    CStringEnds(text);
    ghost var c := CString(text);
    var token := new byte[TOKEN_BYTES];
    var tokenLen, cursor := 0, 0;
    ghost var start := 0;
    final := state;
    NothingCut();
    while true
      invariant start <= cursor <= |c| && tokenLen < TOKEN_BYTES
      invariant forall i :: start <= i < cursor ==> IsTokenByte(c[i])
      invariant token[..tokenLen] == Cut(Lower(c[start..cursor]))
      invariant tokenLen == 0 <==> start == cursor
      invariant FoldUntil(Tokens(c), state, emit) == FoldUntil(TokensFrom(c, start), final, emit)
      decreases |c| - cursor
    {
      var byte := if cursor < |text| then text[cursor] else 0;
      var tokenByte := byte != 0 && IsTokenByte(byte);
      if tokenByte {
        CutGrows(c[start..cursor], byte);
        CutLength(c[start..cursor]);
        assert c[start..cursor + 1] == c[start..cursor] + [byte];
        if tokenLen + 1 < TOKEN_BYTES {
          token[tokenLen] := LowerByte(byte);
          tokenLen := tokenLen + 1;
        }
      }
      if (!tokenByte || byte == 0) && tokenLen > 0 {
        TokenEnds(c, start, cursor, final, emit);
        var (next, go) := emit(final, token[..tokenLen]);
        final := next;
        if !go {
          return;
        }
        tokenLen := 0;
        start := cursor;
        NothingCut();
      }
      if byte == 0 {
        TokensEnd(c, final, emit);
        break;
      }
      if !tokenByte {
        RunsUnfold(c, cursor);
        start := cursor + 1;
      }
      cursor := cursor + 1;
    }
  }

  /** A run that ends here is the next token handed to the callback. */
  lemma TokenEnds<S>(s: seq<byte>, start: nat, end: nat, state: S, emit: (S, Token) -> (S, bool))
    requires start < end <= |s| && (forall i :: start <= i < end ==> IsTokenByte(s[i]))
    requires end < |s| ==> !IsTokenByte(s[end])
    ensures var (next, go) := emit(state, Cut(Lower(s[start..end])));
            FoldUntil(TokensFrom(s, start), state, emit) == if go then FoldUntil(TokensFrom(s, end), next, emit) else next
  {
    hide IsTokenByte, Cut, Lower, RunEnd;
    RunEndIs(s, start, end);
    var tokens := TokensFrom(s, start);
    assert tokens[1..] == TokensFrom(s, end);
  }

  lemma TokensEnd<S>(s: seq<byte>, state: S, emit: (S, Token) -> (S, bool))
    ensures FoldUntil(TokensFrom(s, |s|), state, emit) == state
  {
  }

  lemma NothingCut()
    ensures Cut(Lower([])) == []
  {
  }

  lemma CutLength(s: seq<byte>)
    ensures |Cut(Lower(s))| == if |s| < TOKEN_BYTES then |s| else TOKEN_BYTES - 1
  {
  }

  // ---------------------------------------------------------------- stopping early

  /** Collect tokens until there are `k` of them. */
  function TakeUpTo(k: nat): (seq<Token>, Token) -> (seq<Token>, bool) {
    (kept: seq<Token>, token: Token) => (kept + [token], |kept| + 1 < k)
  }

  /** A callback that stops at its k-th token has been given exactly the first k tokens. */
  lemma {:induction false} StoppingGivesAPrefix(tokens: seq<Token>, kept: seq<Token>, k: nat)
    requires |kept| < k
    ensures FoldUntil(tokens, kept, TakeUpTo(k)) ==
            kept + if |tokens| <= k - |kept| then tokens else tokens[..k - |kept|]
    decreases |tokens|
  {
    if tokens != [] {
      if |kept| + 1 < k {
        StoppingGivesAPrefix(tokens[1..], kept + [tokens[0]], k);
      }
    }
  }

  // ---------------------------------------------------------------- tokenizing is idempotent

  /** A token as the scanner produces it. */
  predicate Canonical(t: Token) {
    0 < |t| < TOKEN_BYTES && forall i :: 0 <= i < |t| ==> IsTokenByte(t[i]) && LowerByte(t[i]) == t[i]
  }

  predicate AllCanonical(ts: seq<Token>) {
    forall i :: 0 <= i < |ts| ==> Canonical(ts[i])
  }

  /** The tokens separated by single spaces. */
  function Join(ts: seq<Token>): seq<byte> {
    if ts == [] then [] else if |ts| == 1 then ts[0] else ts[0] + ([32] + Join(ts[1..]))
  }

  lemma LowerIsCanonical(s: seq<byte>)
    requires s != [] && forall i :: 0 <= i < |s| ==> IsTokenByte(s[i])
    ensures Canonical(Cut(Lower(s)))
  {
  }

  lemma {:induction false} TokensAreCanonical(s: seq<byte>, k: nat)
    requires k <= |s|
    ensures AllCanonical(TokensFrom(s, k))
    decreases |s| - k
  {
    hide IsTokenByte, LowerByte, Cut, Lower;
    if k < |s| {
      if !IsTokenByte(s[k]) {
        TokensAreCanonical(s, k + 1);
      } else {
        var end := RunEnd(s, k);
        LowerIsCanonical(s[k..end]);
        TokensAreCanonical(s, end);
      }
    }
  }

  lemma LowerOfCanonical(t: Token)
    requires Canonical(t)
    ensures Cut(Lower(t)) == t
  {
  }

  lemma {:induction false} RunEndShifts(p: seq<byte>, s: seq<byte>, k: nat)
    requires k <= |s|
    ensures RunEnd(p + s, |p| + k) == |p| + RunEnd(s, k)
    decreases |s| - k
  {
    hide IsTokenByte;
    if k < |s| && IsTokenByte(s[k]) {
      RunEndShifts(p, s, k + 1);
    }
  }

  /** The tokens of a suffix do not depend on what precedes it. */
  lemma {:induction false} TokensShift(p: seq<byte>, s: seq<byte>, k: nat)
    requires k <= |s|
    ensures TokensFrom(p + s, |p| + k) == TokensFrom(s, k)
    decreases |s| - k
  {
    hide IsTokenByte, Cut, Lower, TokensFrom, Runs, RunEnd;
    RunsUnfold(p + s, |p| + k);
    RunsUnfold(s, k);
    if k < |s| {
      assert (p + s)[|p| + k] == s[k];
      if !IsTokenByte(s[k]) {
        TokensShift(p, s, k + 1);
      } else {
        RunEndShifts(p, s, k);
        var end := RunEnd(s, k);
        assert (p + s)[|p| + k..|p| + end] == s[k..end];
        TokensShift(p, s, end);
      }
    }
  }

  lemma SpaceEndsAToken()
    ensures !IsTokenByte(32)
  {
  }

  lemma {:induction false} TokensOfJoin(ts: seq<Token>)
    requires AllCanonical(ts)
    ensures Tokens(Join(ts)) == ts
  {
    hide IsTokenByte, LowerByte, Cut, Lower, RunEnd, TokensFrom, Runs;
    RunsUnfold(Join(ts), 0);
    if |ts| == 1 {
      TokenLeads(ts[0], []);
      RunsUnfold(ts[0], |ts[0]|);
      assert ts[0] + [] == ts[0];
    } else if ts != [] {
      var t, rest := ts[0], Join(ts[1..]);
      var s := t + ([32] + rest);
      SpaceEndsAToken();
      TokenLeads(t, [32] + rest);
      RunsUnfold(s, |t|);
      assert s == (t + [32]) + rest;
      TokensShift(t + [32], rest, 0);
      TokensOfJoin(ts[1..]);
    }
  }

  /** A token that nothing of the kind follows is scanned off the front unchanged. */
  lemma TokenLeads(t: Token, rest: seq<byte>)
    requires Canonical(t) && (rest != [] ==> !IsTokenByte(rest[0]))
    ensures TokensFrom(t + rest, 0) == [t] + TokensFrom(t + rest, |t|)
  {
    hide IsTokenByte, LowerByte, Cut, Lower, RunEnd, TokensFrom, Runs;
    var s := t + rest;
    assert forall i :: 0 <= i < |t| ==> s[i] == t[i];
    assert IsTokenByte(s[0]);
    RunsUnfold(s, 0);
    RunEndIs(s, 0, |t|);
    assert s[0..|t|] == t;
    LowerOfCanonical(t);
  }

  /** Joined tokens hold no terminator, so the scanner reads them to their end. */
  lemma {:induction false} JoinIsACString(ts: seq<Token>)
    requires AllCanonical(ts)
    ensures CString(Join(ts)) == Join(ts)
  {
    JoinHasNoTerminator(ts);
    CStringEnds(Join(ts));
  }

  lemma {:induction false} JoinHasNoTerminator(ts: seq<Token>)
    requires AllCanonical(ts)
    ensures forall i :: 0 <= i < |Join(ts)| ==> Join(ts)[i] != 0
  {
    if ts != [] {
      JoinHasNoTerminator(ts[1..]);
      assert Canonical(ts[0]);
    }
  }

  /**
   Scanning the space-joined tokens of any text emits the same tokens again.
   */
  lemma RetokenizingIsIdentity(text: seq<byte>)
    ensures var ts := Tokens(CString(text)); Tokens(CString(Join(ts))) == ts
  {
    var c := CString(text);
    CStringEnds(text);
    TokensAreCanonical(c, 0);
    JoinIsACString(Tokens(c));
    TokensOfJoin(Tokens(c));
  }

  // ---------------------------------------------------------------- distinct tokens

  /** The tokens without repetition, in the order of first appearance. */
  function Distinct(tokens: seq<Token>): seq<Token> {
    if tokens == [] then [] else
      var n := |tokens| - 1;
      var before := Distinct(tokens[..n]);
      if tokens[n] in tokens[..n] then before else before + [tokens[n]]
  }

  lemma {:induction false} DistinctFacts(tokens: seq<Token>)
    ensures forall t :: t in Distinct(tokens) <==> t in tokens
    ensures forall i, j :: 0 <= i < j < |Distinct(tokens)| ==> Distinct(tokens)[i] != Distinct(tokens)[j]
  {
    if tokens != [] {
      var n := |tokens| - 1;
      DistinctFacts(tokens[..n]);
      assert forall t :: t in tokens <==> t in tokens[..n] || t == tokens[n];
    }
  }

  lemma {:induction false} DistinctIsPrefixed(tokens: seq<Token>, n: nat)
    requires n <= |tokens|
    ensures Distinct(tokens[..n]) <= Distinct(tokens)
    decreases |tokens| - n
  {
    if n < |tokens| {
      DistinctIsPrefixed(tokens, n + 1);
      assert tokens[..n + 1][..n] == tokens[..n];
    } else {
      assert tokens[..n] == tokens;
    }
  }

  lemma DistinctStep(tokens: seq<Token>, n: nat)
    requires n < |tokens|
    ensures Distinct(tokens[..n + 1]) ==
            if tokens[n] in tokens[..n] then Distinct(tokens[..n]) else Distinct(tokens[..n]) + [tokens[n]]
    ensures forall t :: t in tokens[..n + 1] <==> t in tokens[..n] || t == tokens[n]
  {
    assert tokens[..n + 1][..n] == tokens[..n];
  }

  lemma DistinctOfNothing(tokens: seq<Token>)
    ensures Distinct([]) == [] && tokens[..0] == []
  {
  }

  function FirstOf(ts: seq<Token>, max: nat): seq<Token> {
    if |ts| <= max then ts else ts[..max]
  }

  /** The callback's state: what it keeps and what it has met. */
  class Collector {
    var kept: seq<Token>
    var seen: set<Token>
    const max: nat

    constructor (max: nat)
      ensures kept == [] && seen == {} && this.max == max
    {
      kept, seen, this.max := [], {}, max;
    }

    /** Keep a token not met before; ask for more while the bound is not reached. */
    method EmitToken(token: Token) returns (go: bool)
      modifies this
      ensures seen == old(seen) + {token}
      ensures kept == if token in old(seen) then old(kept) else old(kept) + [token]
      ensures go == (|kept| < max)
    {
      if token !in seen {
        seen := seen + {token};
        kept := kept + [token];
      }
      go := |kept| < max;
    }
  }

  /** The collector as a callback: keep a token not met before, go on while the bound is not reached. */
  function Keep(max: nat): (seq<Token>, Token) -> (seq<Token>, bool) {
    (kept: seq<Token>, token: Token) =>
      var next := if token in kept then kept else kept + [token];
      (next, |next| < max)
  }

  lemma KeepStep(tokens: seq<Token>, n: nat, max: nat)
    requires n < |tokens|
    ensures var next := Distinct(tokens[..n + 1]);
            Keep(max)(Distinct(tokens[..n]), tokens[n]) == (next, |next| < max)
  {
    hide Distinct;
    DistinctStep(tokens, n);
    DistinctFacts(tokens[..n]);
  }

  lemma FoldStep(tokens: seq<Token>, n: nat, kept: seq<Token>, max: nat)
    requires n < |tokens|
    ensures var (next, go) := Keep(max)(kept, tokens[n]);
            FoldUntil(tokens[n..], kept, Keep(max)) == if go then FoldUntil(tokens[n + 1..], next, Keep(max)) else next
  {
    hide Keep;
    assert tokens[n..][0] == tokens[n] && tokens[n..][1..] == tokens[n + 1..];
  }

  /** Fed to any tokenizer that stops when told to, the collector ends with the first `max` distinct tokens. */
  lemma {:induction false} KeepingIsDistinct(tokens: seq<Token>, n: nat, max: nat)
    requires n <= |tokens| && |Distinct(tokens[..n])| < max
    ensures FoldUntil(tokens[n..], Distinct(tokens[..n]), Keep(max)) == FirstOf(Distinct(tokens), max)
    decreases |tokens| - n
  {
    hide Distinct, Keep;
    if n == |tokens| {
      assert tokens[..n] == tokens && tokens[n..] == [];
    } else {
      hide FoldUntil;
      KeepStep(tokens, n, max);
      FoldStep(tokens, n, Distinct(tokens[..n]), max);
      if |Distinct(tokens[..n + 1])| < max {
        KeepingIsDistinct(tokens, n + 1, max);
      } else {
        DistinctStep(tokens, n);
        DistinctIsPrefixed(tokens, n + 1);
      }
    }
  }

  /** Collect from the schema-1 scanner itself: the first `max` distinct tokens of the text. */
  method CollectLegacy(text: seq<byte>, max: nat) returns (kept: seq<Token>)
    ensures kept == FirstOf(Distinct(Tokens(CString(text))), max)
  {
    hide Distinct, Tokens, CString;
    ghost var tokens := Tokens(CString(text));
    DistinctOfNothing(tokens);
    NoTokensOfNothing(text);
    if text == [] || max == 0 {
      return [];
    }
    assert tokens[0..] == tokens;
    KeepingIsDistinct(tokens, 0, max);
    kept := Scan(text, [], Keep(max));
  }

  lemma NoTokensOfNothing(text: seq<byte>)
    ensures text == [] ==> Tokens(CString(text)) == []
  {
  }

  /**
   Collect from any tokenizer that emits `tokens` in order and stops when told to: the result is
   the first `max` of the distinct tokens, without looking at a token past the last it keeps.
   */
  method DistinctTokens(tokens: seq<Token>, max: nat) returns (kept: seq<Token>, looked: nat)
    ensures kept == FirstOf(Distinct(tokens), max)
    ensures looked <= |tokens| && Distinct(tokens[..looked]) == kept
    ensures |kept| == max > 0 ==> looked > 0 && kept[max - 1] == tokens[looked - 1]
  {
    hide Distinct;
    DistinctOfNothing(tokens);
    if max == 0 {
      return [], 0;
    }
    var collector := new Collector(max);
    looked := 0;
    while looked < |tokens|
      invariant looked <= |tokens|
      invariant collector.max == max && |collector.kept| < max
      invariant collector.kept == Distinct(tokens[..looked])
      invariant forall t :: t in collector.seen <==> t in tokens[..looked]
    {
      DistinctStep(tokens, looked);
      DistinctIsPrefixed(tokens, looked + 1);
      var go := collector.EmitToken(tokens[looked]);
      looked := looked + 1;
      if !go {
        return collector.kept, looked;
      }
    }
    assert tokens[..looked] == tokens;
    return collector.kept, looked;
  }
}
