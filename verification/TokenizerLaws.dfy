/** What the flags and the explicit end of `tokenize` mean. */
module TokenizerLaws {
  import opened Texts
  import opened Tokenizer

  lemma {:induction false} TrimmedAllAt(ts: seq<string>)
    ensures |TrimmedAll(ts)| == |ts| && forall i | 0 <= i < |ts| :: TrimmedAll(ts)[i] == Trimmed(ts[i])
    decreases |ts|
  {
    hide Trimmed;
    if ts != [] {
      TrimmedAllAt(ts[1..]);
    }
  }

  /** `at` lists, in order, the places of all texts that are not empty. */
  ghost predicate Selects(ts: seq<string>, at: seq<nat>) {
    && (forall k | 0 <= k < |at| :: at[k] < |ts| && ts[at[k]] != "")
    && (forall k, l | 0 <= k < l < |at| :: at[k] < at[l])
    && (forall i | 0 <= i < |ts| && ts[i] != "" :: i in at)
  }

  lemma {:induction false} NonEmptySelects(ts: seq<string>) returns (at: seq<nat>)
    ensures Selects(ts, at) && |NonEmpty(ts)| == |at| && forall k | 0 <= k < |at| :: at[k] < |ts|
    ensures forall k | 0 <= k < |at| :: NonEmpty(ts)[k] == ts[at[k]]
    decreases |ts|
  {
    if ts == [] {
      at := [];
    } else {
      hide Selects;
      var rest := NonEmptySelects(ts[1..]);
      var moved := seq(|rest|, k requires 0 <= k < |rest| => rest[k] + 1);
      at := (if ts[0] == "" then [] else [0]) + moved;
      MovedSelects(ts, rest, moved, at);
      MovedTexts(ts, NonEmpty(ts[1..]), rest, moved, at);
    }
  }

  lemma MovedTexts(ts: seq<string>, tail: seq<string>, rest: seq<nat>, moved: seq<nat>, at: seq<nat>)
    requires ts != [] && Selects(ts[1..], rest) && |tail| == |rest| && forall k | 0 <= k < |rest| :: tail[k] == ts[1..][rest[k]]
    requires |moved| == |rest| && forall k | 0 <= k < |rest| :: moved[k] == rest[k] + 1
    requires at == (if ts[0] == "" then [] else [0]) + moved && forall k | 0 <= k < |at| :: at[k] < |ts|
    ensures var all := (if ts[0] == "" then [] else [ts[0]]) + tail;
            |all| == |at| && forall k | 0 <= k < |at| :: all[k] == ts[at[k]]
  {
    var all := (if ts[0] == "" then [] else [ts[0]]) + tail;
    var n := if ts[0] == "" then 0 else 1;
    forall k | 0 <= k < |at|
      ensures all[k] == ts[at[k]]
    {
      if k >= n {
        assert all[k] == tail[k - n] == ts[1..][rest[k - n]] && at[k] == rest[k - n] + 1;
      }
    }
  }

  lemma MovedSelects(ts: seq<string>, rest: seq<nat>, moved: seq<nat>, at: seq<nat>)
    requires ts != [] && Selects(ts[1..], rest)
    requires |moved| == |rest| && forall k | 0 <= k < |rest| :: moved[k] == rest[k] + 1
    requires at == (if ts[0] == "" then [] else [0]) + moved
    ensures Selects(ts, at) && forall k | 0 <= k < |at| :: at[k] < |ts|
  {
    var n := if ts[0] == "" then 0 else 1;
    forall k | 0 <= k < |at|
      ensures at[k] == if k < n then 0 else rest[k - n] + 1
      ensures at[k] < |ts| && ts[at[k]] != ""
    {
      assert k >= n ==> ts[1..][rest[k - n]] == ts[at[k]];
    }
    forall i | 0 <= i < |ts| && ts[i] != ""
      ensures i in at
    {
      Listed(ts, rest, at, n, i);
    }
  }

  lemma Listed(ts: seq<string>, rest: seq<nat>, at: seq<nat>, n: nat, i: nat)
    requires i < |ts| && ts[i] != "" && n == (if ts[0] == "" then 0 else 1) && |at| == |rest| + n
    requires forall k | 0 <= k < |ts[1..]| && ts[1..][k] != "" :: k in rest
    requires forall k | 0 <= k < |at| :: at[k] == if k < n then 0 else rest[k - n] + 1
    ensures i in at
  {
    if i > 0 {
      assert ts[1..][i - 1] == ts[i];
      var k :| 0 <= k < |rest| && rest[k] == i - 1;
      assert at[k + n] == i;
    } else {
      assert at[0] == 0;
    }
  }

  lemma Chosen(ts: seq<string>, at: seq<nat>, i: nat)
    requires Selects(ts, at) && i < |ts|
    ensures i in at <==> ts[i] != ""
  {
  }

  /** The raw piece as a token: trimmed, if asked. */
  function Shown(raw: seq<string>, trim: bool, i: nat): string
    requires i < |raw|
  {
    if trim then Trimmed(raw[i]) else raw[i]
  }

  /** An empty delimiter gives the text as it is. */
  lemma NoDelimiter(s: string, allowEmpty: bool, trim: bool, begin: nat, end: nat)
    ensures Tokens(s, "", allowEmpty, trim, begin, end) == [s]
  {
  }

  /** If empty tokens are allowed, every raw piece is a token, trimmed if asked. */
  lemma AllTokens(s: string, d: string, trim: bool, begin: nat, end: nat)
    requires d != ""
    ensures var raw := RawSplit(s, d, begin, end);
            var tokens := Tokens(s, d, true, trim, begin, end);
            |tokens| == |raw| && forall i | 0 <= i < |raw| :: tokens[i] == Shown(raw, trim, i)
  {
    hide RawSplit, Trimmed;
    TrimmedAllAt(RawSplit(s, d, begin, end));
  }

  /** If they are not, the tokens are those that are not empty, in their order; `at` gives their places. */
  lemma FullTokens(s: string, d: string, trim: bool, begin: nat, end: nat) returns (at: seq<nat>)
    requires d != ""
    ensures var raw := RawSplit(s, d, begin, end);
            var tokens := Tokens(s, d, false, trim, begin, end);
            && |at| == |tokens| && (forall k | 0 <= k < |at| :: at[k] < |raw| && tokens[k] == Shown(raw, trim, at[k]))
            && (forall k, l | 0 <= k < l < |at| :: at[k] < at[l])
            && (forall i | 0 <= i < |raw| :: (i in at <==> Shown(raw, trim, i) != ""))
  {
    hide RawSplit, Trimmed;
    var raw := RawSplit(s, d, begin, end);
    TrimmedAllAt(raw);
    var pieces := if trim then TrimmedAll(raw) else raw;
    at := NonEmptySelects(pieces);
    forall i | 0 <= i < |raw|
      ensures i in at <==> Shown(raw, trim, i) != ""
    {
      Chosen(pieces, at, i);
    }
  }

  /** With an explicit end: joining the pieces gives the text up to the end, and a delimiter that starts before the end
      counts whole; it is left out of the joined text only if it is the last thing split off. */
  lemma {:induction false} SplitUpTo(s: string, d: string, begin: nat, end: nat) returns (stop: nat, closed: bool)
    requires d != "" && begin <= |s|
    ensures begin <= stop <= |s|
    ensures var ts := RawSplit(s, d, begin, end);
            && s[begin..stop] == (if closed then Joined(ts, d) + d else Joined(ts, d))
            && (closed ==> ts != [] && Clipped(s, end) <= stop && stop - |d| < end)
            && (!closed ==> stop == if ts == [] then begin else Clipped(s, end))
    decreases |s| - begin
  {
    hide At, Find, Joined;
    var found := Find(s, d, begin);
    if found.Some? && found.value < end {
      var next := found.value + |d|;
      var t, rest := s[begin..found.value], RawSplit(s, d, next, end);
      stop, closed := SplitUpTo(s, d, next, end);
      AroundDelimiter(s, d, begin, found.value);
      if rest == [] {
        stop, closed := next, true;
        Cut(s, begin, found.value, next, next, d);
        LastJoined(t, d);
        Alone(s[begin..next], t, d, s[next..next], rest);
      } else {
        Cut(s, begin, found.value, next, stop, d);
        JoinedStep(s[begin..stop], t, d, s[next..stop], rest, closed);
      }
    } else {
      closed := false;
      if begin < |s| && begin < end {
        stop := Clipped(s, end);
        LastJoined(s[begin..stop], d);
      } else {
        stop := begin;
        LastJoined("", d);
      }
    }
  }

  lemma Alone(text: string, t: string, d: string, tail: string, rest: seq<string>)
    requires text == t + d + tail && tail == "" && rest == []
    ensures text == t + d && [t] + rest == [t]
  {
  }

  lemma Cut(s: string, a: nat, b: nat, c: nat, e: nat, d: string)
    requires a <= b <= c <= e <= |s| && c == b + |d| && s[a..] == s[a..b] + d + s[c..]
    ensures s[a..e] == s[a..b] + d + s[c..e]
  {
    assert s[b..c] == d by {
      assert s[a..][b - a..c - a] == s[b..c];
      assert (s[a..b] + d + s[c..])[b - a..c - a] == d;
    }
    assert s[a..e] == s[a..b] + s[b..c] + s[c..e];
  }
}
