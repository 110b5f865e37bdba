/** `tokenize`: one loop that splits a text, trims the pieces and drops the empty ones. */
module Tokenizer {
  import opened Texts

  /** The first place at or after `i` where `d` is written, as `std::string::find` gives it. */
  function Find(s: string, d: string, i: nat): (r: Option<nat>)
    ensures r.Some? ==> i <= r.value <= |s| - |d| && At(s, r.value, d) && forall k | i <= k < r.value :: !At(s, k, d)
    ensures r.None? ==> forall k | i <= k :: !At(s, k, d)
    decreases |s| - i
  {
    if i > |s| then None else if At(s, i, d) then Some(i) else Find(s, d, i + 1)
  }

  predicate Contains(t: string, d: string) {
    Find(t, d, 0).Some?
  }

  // ----------------------------------------------------------------- the three passes

  /** The pieces between the delimiters that start before `end`. */
  function RawSplit(s: string, d: string, begin: nat, end: nat): seq<string>
    requires d != ""
    decreases |s| - begin
  {
    var found := Find(s, d, begin);
    if found.Some? && found.value < end then [s[begin..found.value]] + RawSplit(s, d, found.value + |d|, end)
    else if begin < |s| && begin < end then [s[begin..Clipped(s, end)]]
    else []
  }

  function Clipped(s: string, end: nat): nat {
    if end < |s| then end else |s|
  }

  function TrimLeft(t: string): string {
    if t != "" && t[0] == ' ' then TrimLeft(t[1..]) else t
  }

  function TrimRight(t: string): string {
    if t != "" && t[|t| - 1] == ' ' then TrimRight(t[..|t| - 1]) else t
  }

  function Trimmed(t: string): string {
    TrimRight(TrimLeft(t))
  }

  function TrimmedAll(ts: seq<string>): seq<string> {
    if ts == [] then [] else [Trimmed(ts[0])] + TrimmedAll(ts[1..])
  }

  function NonEmpty(ts: seq<string>): seq<string> {
    if ts == [] then [] else (if ts[0] == "" then [] else [ts[0]]) + NonEmpty(ts[1..])
  }

  /** Split, then trim, then drop. */
  function Shaped(raw: seq<string>, allowEmpty: bool, trim: bool): seq<string> {
    var pieces := if trim then TrimmedAll(raw) else raw;
    if allowEmpty then pieces else NonEmpty(pieces)
  }

  // ----------------------------------------------------------------- the loop

  /** The piece a raw piece gives, if it is kept. */
  function Piece(t: string, trim: bool): string {
    if trim then Trimmed(t) else t
  }

  lemma ShapedCons(t: string, ts: seq<string>, allowEmpty: bool, trim: bool)
    ensures Shaped([t] + ts, allowEmpty, trim) ==
            Kept(t, allowEmpty, trim) + Shaped(ts, allowEmpty, trim)
  {
    assert ([t] + ts)[1..] == ts;
    assert [Piece(t, trim)] + TrimmedAll(ts) == TrimmedAll([t] + ts) || !trim;
    var rest := if trim then TrimmedAll(ts) else ts;
    assert ([Piece(t, trim)] + rest)[1..] == rest;
  }

  /** The tokens still to come when the scan stands at `at`. */
  function Rest(s: string, d: string, allowEmpty: bool, trim: bool, at: nat, end: nat): seq<string>
    requires d != ""
  {
    Shaped(RawSplit(s, d, at, end), allowEmpty, trim)
  }

  /** What `tokenize` gives. */
  function Tokens(s: string, d: string, allowEmpty: bool, trim: bool, begin: nat, end: nat): seq<string> {
    if d == "" then [s] else Rest(s, d, allowEmpty, trim, begin, end)
  }

  function Kept(t: string, allowEmpty: bool, trim: bool): seq<string> {
    if !allowEmpty && Piece(t, trim) == "" then [] else [Piece(t, trim)]
  }

  lemma RestStep(s: string, d: string, allowEmpty: bool, trim: bool, at: nat, end: nat)
    requires d != ""
    ensures var found := Find(s, d, at);
            Rest(s, d, allowEmpty, trim, at, end) ==
            if found.Some? && found.value < end then
              Kept(s[at..found.value], allowEmpty, trim) + Rest(s, d, allowEmpty, trim, found.value + |d|, end)
            else if at < |s| && at < end then Kept(s[at..Clipped(s, end)], allowEmpty, trim)
            else []
  {
    hide Piece, At, Kept, Find;
    var found := Find(s, d, at);
    if found.Some? && found.value < end {
      ShapedCons(s[at..found.value], RawSplit(s, d, found.value + |d|, end), allowEmpty, trim);
    } else if at < |s| && at < end {
      ShapedCons(s[at..Clipped(s, end)], [], allowEmpty, trim);
      assert [s[at..Clipped(s, end)]] + [] == [s[at..Clipped(s, end)]];
    }
  }

  /** The two inner loops: the bounds move in over the spaces. */
  method Narrow(s: string, begin: nat, cutoff: nat, trim: bool) returns (from: nat, to: nat)
    requires begin <= cutoff <= |s|
    ensures begin <= from <= to <= cutoff && s[from..to] == Piece(s[begin..cutoff], trim)
  {
    from, to := begin, cutoff;
    while trim && from < to && s[from] == ' '
      invariant begin <= from <= to && (!trim ==> from == begin)
      invariant TrimLeft(s[from..to]) == TrimLeft(s[begin..to])
    {
      assert s[from..to][1..] == s[from + 1..to];
      from := from + 1;
    }
    assert trim ==> TrimLeft(s[from..to]) == s[from..to];
    while trim && to > from && s[to - 1] == ' '
      invariant from <= to <= cutoff && (!trim ==> to == cutoff)
      invariant TrimRight(s[from..to]) == TrimRight(s[from..cutoff])
    {
      assert s[from..to][..to - from - 1] == s[from..to - 1];
      to := to - 1;
    }
  }

  /** What is collected and what is still to come, when one more piece is looked at. */
  lemma PieceTaken(s: string, d: string, allowEmpty: bool, trim: bool, at: nat, end: nat, tokens: seq<string>, piece: string)
    requires d != ""
    requires var found := Find(s, d, at);
             found.Some? && found.value < end && piece == Piece(s[at..found.value], trim)
    ensures tokens + Rest(s, d, allowEmpty, trim, at, end) ==
            (if !allowEmpty && piece == "" then tokens else tokens + [piece])
            + Rest(s, d, allowEmpty, trim, Find(s, d, at).value + |d|, end)
  {
    hide RawSplit, Shaped, Piece, At, Find, Rest;
    RestStep(s, d, allowEmpty, trim, at, end);
  }

  lemma LastPieceTaken(s: string, d: string, allowEmpty: bool, trim: bool, at: nat, end: nat, tokens: seq<string>, piece: string)
    requires d != "" && at < |s| && at < end && piece == Piece(s[at..Clipped(s, end)], trim)
    requires var found := Find(s, d, at); !(found.Some? && found.value < end)
    ensures tokens + Rest(s, d, allowEmpty, trim, at, end) ==
            if !allowEmpty && piece == "" then tokens else tokens + [piece]
  {
    hide RawSplit, Shaped, Piece, At, Find, Rest;
    RestStep(s, d, allowEmpty, trim, at, end);
  }

  lemma NothingLeft(s: string, d: string, allowEmpty: bool, trim: bool, at: nat, end: nat, tokens: seq<string>)
    requires d != "" && !(at < |s| && at < end)
    requires var found := Find(s, d, at); !(found.Some? && found.value < end)
    ensures tokens + Rest(s, d, allowEmpty, trim, at, end) == tokens
  {
    hide RawSplit, Shaped, Piece, At, Find, Rest;
    RestStep(s, d, allowEmpty, trim, at, end);
  }

  method Tokenize(s: string, delimiter: string, allowEmpty: bool, trim: bool, begin: nat, end: nat)
    returns (tokens: seq<string>)
    ensures tokens == Tokens(s, delimiter, allowEmpty, trim, begin, end)
  {
    hide RawSplit, Shaped, Piece, At, Find, Rest;
    if |delimiter| == 0 {
      return [s];
    }
    tokens := [];
    if |s| == 0 {
      NothingLeft(s, delimiter, allowEmpty, trim, begin, end, []);
      return;
    }
    var at := begin;
    var found := Find(s, delimiter, at);
    while found.Some? && found.value < end
      invariant found == Find(s, delimiter, at)
      invariant Rest(s, delimiter, allowEmpty, trim, begin, end) ==
                tokens + Rest(s, delimiter, allowEmpty, trim, at, end)
      decreases |s| - at
    {
      var from, cutoff := Narrow(s, at, found.value, trim);
      PieceTaken(s, delimiter, allowEmpty, trim, at, end, tokens, s[from..cutoff]);
      at := found.value + |delimiter|;
      found := Find(s, delimiter, at);
      if !allowEmpty && cutoff == from {
        continue;
      }
      tokens := tokens + [s[from..cutoff]];
    }
    if at < |s| && at < end {
      var from, cutoff := Narrow(s, at, Clipped(s, end), trim);
      LastPieceTaken(s, delimiter, allowEmpty, trim, at, end, tokens, s[from..cutoff]);
      if allowEmpty || cutoff != from {
        tokens := tokens + [s[from..cutoff]];
      }
    } else {
      NothingLeft(s, delimiter, allowEmpty, trim, at, end, tokens);
    }
  }

  // ----------------------------------------------------------------- what splitting means

  lemma AtIn(s: string, b: nat, c: nat, k: nat, d: string)
    requires b <= c <= |s| && At(s[b..c], k, d)
    ensures At(s, b + k, d)
  {
    assert s[b..c][k..] <= s[b + k..];
  }

  /** A text that `x` is not written in has no slice that `x` is written in. */
  lemma SliceContains(s: string, b: nat, c: nat, x: string)
    requires b <= c <= |s| && Contains(s[b..c], x)
    ensures exists k | b <= k :: At(s, k, x)
    ensures Contains(s, x)
  {
    AtIn(s, b, c, Find(s[b..c], x, 0).value, x);
  }

  /** No piece contains the delimiter, wherever the splitting ends; and the pieces are slices of the text. */
  lemma {:induction false} PiecesAreClean(s: string, d: string, begin: nat, end: nat, t: string)
    returns (from: nat, to: nat)
    requires d != "" && t in RawSplit(s, d, begin, end)
    ensures !Contains(t, d)
    ensures begin <= from <= to <= |s| && t == s[from..to]
    decreases |s| - begin
  {
    hide At, Find, Contains;
    var found := Find(s, d, begin);
    if found.Some? && found.value < end {
      if t == s[begin..found.value] {
        FirstPieceIsClean(s, d, begin, found.value);
        from, to := begin, found.value;
      } else {
        from, to := PiecesAreClean(s, d, found.value + |d|, end, t);
      }
    } else {
      FirstPieceIsClean(s, d, begin, Clipped(s, end));
      from, to := begin, Clipped(s, end);
    }
  }

  lemma FirstPieceIsClean(s: string, d: string, begin: nat, cut: nat)
    requires d != "" && begin <= cut <= |s|
    requires var found := Find(s, d, begin); found.Some? ==> cut <= found.value
    ensures !Contains(s[begin..cut], d)
  {
    var inside := Find(s[begin..cut], d, 0);
    if inside.Some? {
      AtIn(s, begin, cut, inside.value, d);
    }
  }

  /** The pieces, each followed by a delimiter. */
  function Terminated(ts: seq<string>, d: string): string {
    if ts == [] then "" else ts[0] + d + Terminated(ts[1..], d)
  }

  /** The pieces with delimiters between them. */
  function Joined(ts: seq<string>, d: string): string {
    if ts == [] then "" else if |ts| == 1 then ts[0] else ts[0] + d + Joined(ts[1..], d)
  }

  /** The last delimiter that splitting finds ends the text. */
  predicate EndsClosed(s: string, d: string, begin: nat)
    requires d != ""
    decreases |s| - begin
  {
    var found := Find(s, d, begin);
    found.Some? && (found.value + |d| == |s| || EndsClosed(s, d, found.value + |d|))
  }

  lemma JoinedCons(t: string, ts: seq<string>, d: string)
    ensures Joined([t] + ts, d) == if ts == [] then t else t + d + Joined(ts, d)
  {
    assert ([t] + ts)[1..] == ts;
  }

  lemma AroundDelimiter(s: string, d: string, begin: nat, f: nat)
    requires begin <= f && At(s, f, d)
    ensures f + |d| <= |s| && s[begin..] == s[begin..f] + d + s[f + |d|..]
  {
    AtSlice(s, f, d);
  }

  lemma JoinedStep(text: string, t: string, d: string, tail: string, ts: seq<string>, closed: bool)
    requires text == t + d + tail && ts != []
    requires tail == if closed then Joined(ts, d) + d else Joined(ts, d)
    ensures text == if closed then Joined([t] + ts, d) + d else Joined([t] + ts, d)
  {
    hide Joined;
    JoinedCons(t, ts, d);
  }

  lemma RestIsSplit(s: string, d: string, begin: nat)
    requires d != "" && begin < |s|
    ensures RawSplit(s, d, begin, |s|) != []
  {
  }

  /** Joining the pieces gives the text back, but for a delimiter that ends it. */
  lemma {:induction false} SplitJoined(s: string, d: string, begin: nat)
    requires d != "" && begin <= |s|
    ensures var ts := RawSplit(s, d, begin, |s|);
            s[begin..] == if EndsClosed(s, d, begin) then Joined(ts, d) + d else Joined(ts, d)
    decreases |s| - begin
  {
    hide At, Find, Joined;
    var found := Find(s, d, begin);
    if found.Some? {
      var next := found.value + |d|;
      AroundDelimiter(s, d, begin, found.value);
      if next == |s| {
        EndSplit(s, d, begin);
      } else {
        SplitJoined(s, d, next);
        RestIsSplit(s, d, next);
        JoinedStep(s[begin..], s[begin..found.value], d, s[next..], RawSplit(s, d, next, |s|), EndsClosed(s, d, next));
      }
    } else {
      LastJoined(s[begin..], d);
      assert s[begin..|s|] == s[begin..];
    }
  }

  /** The text ends with the delimiter found. */
  lemma EndSplit(s: string, d: string, begin: nat)
    requires d != "" && begin <= |s|
    requires var found := Find(s, d, begin);
             found.Some? && found.value + |d| == |s| && s[begin..] == s[begin..found.value] + d + s[|s|..]
    ensures EndsClosed(s, d, begin) && s[begin..] == Joined(RawSplit(s, d, begin, |s|), d) + d
  {
    hide At, Find, Joined;
    var t := s[begin..Find(s, d, begin).value];
    LastJoined(t, d);
    assert RawSplit(s, d, |s|, |s|) == [];
    assert [t] + [] == [t];
    assert s[|s|..] == "";
  }

  lemma LastJoined(t: string, d: string)
    ensures Joined([], d) == "" && Joined([t], d) == t
  {
  }

  /** The first delimiter in the piece followed by a delimiter is the one that follows it. */
  predicate Separable(t: string, d: string) {
    Find(t + d, d, 0) == Some(|t|)
  }

  lemma FoundInPiece(s: string, d: string, begin: nat, t: string, k: nat)
    requires k < |t| && At(s, begin, t + d)
    ensures At(s, begin + k, d) ==> At(t + d, k, d)
  {
    AtSlice(s, begin, t + d);
    if At(s, begin + k, d) {
      AtSlice(s, begin + k, d);
      assert (t + d)[k..][..|d|] == s[begin + k..begin + k + |d|];
    }
  }

  lemma FindPiece(s: string, d: string, begin: nat, t: string)
    requires d != "" && Separable(t, d) && At(s, begin, t + d)
    ensures Find(s, d, begin) == Some(begin + |t|)
  {
    hide At;
    AtSplit(s, begin, t, d);
    var found := Find(s, d, begin);
    if found.value < begin + |t| {
      FoundInPiece(s, d, begin, t, found.value - begin);
    }
  }

  lemma PieceIsSplit(s: string, d: string, begin: nat, t: string, end: nat)
    requires d != "" && Separable(t, d) && At(s, begin, t + d)
    ensures begin + |t| < end ==> RawSplit(s, d, begin, end) == [t] + RawSplit(s, d, begin + |t| + |d|, end)
    ensures begin + |t| == end && t != "" ==> RawSplit(s, d, begin, end) == [t]
  {
    hide At, Separable;
    FindPiece(s, d, begin, t);
    AtSplit(s, begin, t, d);
    AtSlice(s, begin, t);
  }

  lemma LastPieceIsSplit(s: string, d: string, begin: nat, t: string)
    requires d != "" && t != "" && !Contains(t, d) && begin + |t| == |s| && At(s, begin, t)
    ensures RawSplit(s, d, begin, |s|) == [t]
  {
    AtSlice(s, begin, t);
    assert s[begin..] == t;
    TailContains(s, d, begin);
  }

  lemma TailContains(s: string, d: string, begin: nat)
    requires begin <= |s|
    ensures Find(s, d, begin).Some? ==> Contains(s[begin..], d)
  {
    var found := Find(s, d, begin);
    if found.Some? {
      assert s[begin..][found.value - begin..] == s[found.value..];
      assert At(s[begin..], found.value - begin, d);
    }
  }

  /** Splitting undoes joining, up to a delimiter or up to the end of the text. */
  lemma {:induction false} SplitOfJoined(s: string, d: string, begin: nat, ts: seq<string>, end: nat)
    requires d != "" && ts != [] && end == begin + |Joined(ts, d)| && At(s, begin, Joined(ts, d))
    requires forall t | t in ts :: Separable(t, d)
    requires ts[|ts| - 1] != ""
    requires At(s, end, d) || (end == |s| && !Contains(ts[|ts| - 1], d))
    ensures RawSplit(s, d, begin, end) == ts
    decreases |ts|
  {
    hide At, Separable, RawSplit, Contains;
    var t, rest := ts[0], ts[1..];
    if rest == [] {
      if At(s, end, d) {
        AtSplit(s, begin, t, d);
        PieceIsSplit(s, d, begin, t, end);
      } else {
        LastPieceIsSplit(s, d, begin, t);
      }
    } else {
      AtSplit(s, begin, t + d, Joined(rest, d));
      PieceIsSplit(s, d, begin, t, end);
      SplitOfJoined(s, d, begin + |t + d|, rest, end);
    }
  }

  // ----------------------------------------------------------------- what trimming means

  /** A text with no space at its ends. */
  predicate Tight(t: string) {
    t == "" || (t[0] != ' ' && t[|t| - 1] != ' ')
  }

  predicate Spaces(t: string) {
    forall c | c in t :: c == ' '
  }

  lemma {:induction false} TrimLeftMeans(t: string)
    ensures var r := TrimLeft(t);
            && (r == "" || r[0] != ' ')
            && |r| <= |t| && t[|t| - |r|..] == r && Spaces(t[..|t| - |r|])
  {
    if t != "" && t[0] == ' ' {
      TrimLeftMeans(t[1..]);
      var r := TrimLeft(t);
      assert t[|t| - |r|..] == t[1..][|t[1..]| - |r|..];
      assert t[..|t| - |r|] == [' '] + t[1..][..|t[1..]| - |r|];
    }
  }

  lemma {:induction false} TrimRightMeans(t: string)
    ensures var r := TrimRight(t);
            && (r == "" || r[|r| - 1] != ' ')
            && r <= t && Spaces(t[|r|..])
  {
    if t != "" && t[|t| - 1] == ' ' {
      TrimRightMeans(t[..|t| - 1]);
      var r := TrimRight(t);
      assert t[|r|..] == t[..|t| - 1][|r|..] + [' '];
    }
  }

  /** Trimming takes the spaces off both ends and nothing else. */
  lemma TrimmedMeans(t: string) returns (before: string, after: string)
    ensures Tight(Trimmed(t)) && Spaces(before) && Spaces(after) && t == before + Trimmed(t) + after
  {
    hide TrimLeft, TrimRight, Spaces;
    var left := TrimLeft(t);
    TrimLeftMeans(t);
    TrimRightMeans(left);
    before, after := t[..|t| - |left|], left[|TrimRight(left)|..];
    assert t == before + left;
  }

  lemma TightIsKept(t: string)
    requires Tight(t)
    ensures Trimmed(t) == t
  {
  }

  lemma SliceOfSlice(s: string, b: nat, c: nat, i: nat, j: nat)
    requires b <= c <= |s| && i <= j <= c - b
    ensures s[b..c][i..j] == s[b + i..b + j]
  {
    var x, y := s[b..c][i..j], s[b + i..b + j];
    assert |x| == |y| && forall k | 0 <= k < |x| :: x[k] == y[k];
  }

  /** Every token that is trimmed and kept is a tight, non-empty slice of the text without the delimiter in it. */
  lemma TokensAreTight(s: string, d: string, begin: nat, end: nat, t: string) returns (from: nat, to: nat)
    requires d != "" && t in Tokens(s, d, false, true, begin, end)
    ensures t != "" && Tight(t) && !Contains(t, d)
    ensures begin <= from <= to <= |s| && t == s[from..to]
  {
    hide Contains, RawSplit, Trimmed, Spaces, NonEmpty, TrimmedAll;
    var raw := RawSplit(s, d, begin, end);
    KeptAreTrimmed(raw, t);
    var piece :| piece in raw && t == Trimmed(piece);
    var b, c := PiecesAreClean(s, d, begin, end, piece);
    var before, after := TrimmedMeans(piece);
    assert t == piece[|before|..|before| + |t|];
    from, to := b + |before|, b + |before| + |t|;
    SliceOfSlice(s, b, c, |before|, |before| + |t|);
    if Contains(t, d) {
      SliceContains(piece, |before|, |before| + |t|, d);
    }
  }

  lemma {:induction false} KeptAreTrimmed(raw: seq<string>, t: string)
    requires t in NonEmpty(TrimmedAll(raw))
    ensures t != "" && exists piece | piece in raw :: t == Trimmed(piece)
    decreases |raw|
  {
    if t == Trimmed(raw[0]) && t != "" {
    } else {
      assert t in NonEmpty(TrimmedAll(raw[1..]));
      KeptAreTrimmed(raw[1..], t);
    }
  }
}
