/** Which messages are read, and as what: for any three words in the request line and any header lines. */
module HttpReading {
  import opened Texts
  import opened Tokenizer
  import opened HttpMessages
  import opened HttpRoundTrip

  // ------------------------------------------------------------------ the request line

  /** The ten names of the methods; any other word is undefined. */
  lemma MethodTable(name: string)
    ensures MethodOf("GET") == GET && MethodOf("HEAD") == HEAD && MethodOf("POST") == POST && MethodOf("PUT") == PUT
    ensures MethodOf("DELETE") == DELETE && MethodOf("CONNECT") == CONNECT && MethodOf("OPTIONS") == OPTIONS
    ensures MethodOf("TRACE") == TRACE && MethodOf("PATCH") == PATCH && MethodOf("UNDEFINED") == UNDEFINED
    ensures name !in {"GET", "HEAD", "POST", "PUT", "DELETE", "CONNECT", "OPTIONS", "TRACE", "PATCH"} ==>
              MethodOf(name) == UNDEFINED
    ensures MethodName(MethodOf(name)) == name || MethodOf(name) == UNDEFINED
  {
  }

  /** A word of a request line. */
  predicate IsWord(w: string) {
    w != "" && ' ' !in w && !Contains(w, CRLF)
  }

  predicate AreWords(ws: seq<string>) {
    forall i | 0 <= i < |ws| :: IsWord(ws[i])
  }

  lemma WordIsTight(w: string)
    requires IsWord(w)
    ensures Tight(w) && Trimmed(w) == w
  {
    assert w[0] in w && w[|w| - 1] in w;
    TightIsKept(w);
  }

  lemma {:induction false} WordsKept(ws: seq<string>)
    requires AreWords(ws)
    ensures Shaped(ws, false, true) == ws
    decreases |ws|
  {
    hide IsWord, Shaped, Trimmed;
    if ws == [] {
      KeptCons("", []);
    } else {
      WordIsTight(ws[0]);
      WordsKept(ws[1..]);
      KeptCons(ws[0], ws[1..]);
      assert [ws[0]] + ws[1..] == ws;
      KeptWord(ws[0]);
    }
  }

  lemma KeptWord(w: string)
    requires IsWord(w) && Trimmed(w) == w
    ensures Kept(w, false, true) == [w]
  {
  }

  /** Words with single spaces between them are the words found. */
  lemma WordsFound(ws: seq<string>)
    requires ws != [] && AreWords(ws)
    ensures Words(Joined(ws, " ")) == ws
  {
    hide Contains, Separable, RawSplit, Shaped, Joined;
    forall t | t in ws
      ensures Separable(t, " ") && !Contains(t, " ")
    {
      assert IsWord(t);
      CharSeparable(t, ' ');
    }
    SplitWhole(Joined(ws, " "), " ", ws);
    WordsKept(ws);
  }

  lemma {:induction false} WordsAreFree(ws: seq<string>)
    requires ws != [] && AreWords(ws)
    ensures var line := Joined(ws, " "); line != "" && Tight(line) && !Contains(line, CRLF)
    ensures Joined(ws, " ")[0] == ws[0][0]
    decreases |ws|
  {
    hide Contains, Tight;
    assert IsWord(ws[0]);
    WordIsTight(ws[0]);
    if |ws| > 1 {
      WordsAreFree(ws[1..]);
      SpaceIsFree();
      var rest := Joined(ws[1..], " ");
      CrlfFreeAppend(ws[0], " ");
      CrlfFreeAppend(ws[0] + " ", rest);
      TightJoined(ws[0], " ", rest);
    }
  }

  lemma TightJoined(t: string, middle: string, u: string)
    requires Tight(t) && t != "" && Tight(u) && u != ""
    ensures Tight(t + middle + u)
  {
  }

  // ------------------------------------------------------------------ header lines

  /** A header line as it may come: a name alone, or a name, a colon, spaces and a value. */
  datatype HeaderLine = Bare(name: string) | Pair(name: string, gap: string, value: string)

  function LineText(h: HeaderLine): string {
    match h
    case Bare(name) => name
    case Pair(name, gap, value) => name + ":" + gap + value
  }

  /** What it means. */
  function LineField(h: HeaderLine): Field {
    match h
    case Bare(name) => (name, "")
    case Pair(name, _, value) => (name, value)
  }

  predicate IsHeaderLine(h: HeaderLine) {
    match h
    case Bare(name) => |name| > 1 && Tight(name) && ':' !in name && !Contains(name, CRLF)
    case Pair(name, gap, value) => SafeField((name, value)) && Spaces(gap)
  }

  predicate AreHeaderLines(hs: seq<HeaderLine>) {
    forall i | 0 <= i < |hs| :: IsHeaderLine(hs[i])
  }

  function LineTexts(hs: seq<HeaderLine>): (ls: seq<string>)
    ensures |ls| == |hs| && forall i | 0 <= i < |hs| :: ls[i] == LineText(hs[i])
  {
    if hs == [] then [] else [LineText(hs[0])] + LineTexts(hs[1..])
  }

  function LineFields(hs: seq<HeaderLine>): seq<Field> {
    if hs == [] then [] else [LineField(hs[0])] + LineFields(hs[1..])
  }

  lemma GapIsFree(gap: string)
    requires Spaces(gap)
    ensures !Contains(gap, CRLF) && !Contains(":", CRLF)
  {
    forall k | 0 <= k < |gap|
      ensures gap[k] == ' '
    {
      assert gap[k] in gap;
    }
    CrlfFree(gap);
    CrlfFree(":");
  }

  lemma HeaderLineIsFree(h: HeaderLine)
    requires IsHeaderLine(h)
    ensures LineText(h) != "" && !Contains(LineText(h), CRLF)
  {
    hide Contains;
    if h.Pair? {
      GapIsFree(h.gap);
      CrlfFreeAppend(h.name, ":");
      if h.gap != "" {
        assert h.gap[|h.gap| - 1] in h.gap;
      }
      CrlfFreeAppend(h.name + ":", h.gap);
      CrlfFreeAppend(h.name + ":" + h.gap, h.value);
    }
  }

  lemma {:induction false} TrimRightSpaces(t: string, gap: string)
    requires Spaces(gap)
    ensures TrimRight(t + gap) == TrimRight(t)
    decreases |gap|
  {
    var u := t + gap;
    if gap == "" {
      assert u == t;
    } else {
      var n := |gap| - 1;
      assert gap[n] in gap;
      assert u[..|u| - 1] == t + gap[..n];
      assert forall c | c in gap[..n] :: c in gap;
      TrimRightSpaces(t, gap[..n]);
    }
  }

  lemma {:induction false} TrimLeftSpaces(gap: string, t: string)
    requires Spaces(gap) && (t == "" || t[0] != ' ')
    ensures TrimLeft(gap + t) == t
    decreases |gap|
  {
    var u := gap + t;
    if gap == "" {
      assert u == t;
    } else {
      assert gap[0] in gap;
      assert u[1..] == gap[1..] + t;
      assert forall c | c in gap[1..] :: c in gap;
      TrimLeftSpaces(gap[1..], t);
    }
  }

  /** A header line, trimmed, is longer than one character and is read as what it means. */
  lemma {:induction false} HeaderLineIsRead(h: HeaderLine)
    requires IsHeaderLine(h)
    ensures |Trimmed(LineText(h))| > 1 && FieldOf(Trimmed(LineText(h))) == LineField(h)
  {
    hide Contains, FieldOf;
    var line := LineText(h);
    if h.Bare? {
      TightIsKept(line);
      BareField(h.name);
    } else if h.value == "" {
      assert line == (h.name + ":") + h.gap;
      assert TrimLeft(line) == line;
      TrimRightSpaces(h.name + ":", h.gap);
      assert TrimRight(h.name + ":") == h.name + ":";
      FieldAt(h.name, "");
      assert h.name + ":" + "" == h.name + ":";
    } else {
      TightIsKept(line);
      FieldAt(h.name, h.gap + h.value);
      assert line == h.name + ":" + (h.gap + h.value);
      TrimLeftSpaces(h.gap, h.value);
    }
  }

  lemma BareField(name: string)
    requires ':' !in name
    ensures FieldOf(name) == (name, "")
  {
    CharSeparable(name, ':');
  }

  /** Lines behind the first line of a single character are not looked at. */
  predicate IsStop(junk: seq<string>) {
    junk != [] ==> |junk[0]| == 1 && junk[0] != " "
  }

  lemma {:induction false} HeaderLinesAreRead(hs: seq<HeaderLine>, junk: seq<string>)
    requires AreHeaderLines(hs) && IsStop(junk)
    ensures FieldsOf(Shaped(LineTexts(hs) + junk, false, true)) == LineFields(hs)
    decreases |hs|
  {
    hide IsHeaderLine, FieldOf, Trimmed, Shaped, LineText, LineField;
    var ts := LineTexts(hs);
    if hs == [] {
      assert ts + junk == junk;
      NothingBehindStop(junk);
    } else {
      HeaderLineIsRead(hs[0]);
      HeaderLinesAreRead(hs[1..], junk);
      var rest := LineTexts(hs[1..]) + junk;
      assert ts + junk == [ts[0]] + rest;
      KeptCons(ts[0], rest);
      var shown := Shaped(rest, false, true);
      assert ([Trimmed(ts[0])] + shown)[1..] == shown;
    }
  }

  lemma NothingBehindStop(junk: seq<string>)
    requires IsStop(junk)
    ensures FieldsOf(Shaped(junk, false, true)) == []
  {
    hide Shaped;
    if junk == [] {
      KeptCons("", []);
    } else {
      assert junk == [junk[0]] + junk[1..];
      KeptCons(junk[0], junk[1..]);
      TightIsKept(junk[0]);
    }
  }

  // ------------------------------------------------------------------ messages

  /** A message of these words, header lines, further lines and payload. */
  function MessageOf(ws: seq<string>, hs: seq<HeaderLine>, junk: seq<string>, payload: string): string {
    Joined([Joined(ws, " ")] + (LineTexts(hs) + junk), "\r\n") + "\r\n\r\n" + payload
  }

  predicate AreLines(junk: seq<string>) {
    forall i | 0 <= i < |junk| :: junk[i] != "" && !Contains(junk[i], CRLF)
  }

  lemma AllFree(line: string, hs: seq<HeaderLine>, junk: seq<string>)
    requires line != "" && !Contains(line, CRLF) && AreHeaderLines(hs) && AreLines(junk)
    ensures Free([line] + (LineTexts(hs) + junk))
  {
    hide Contains, IsHeaderLine;
    forall i | 0 <= i < |hs|
      ensures LineText(hs[i]) != "" && !Contains(LineText(hs[i]), CRLF)
    {
      HeaderLineIsFree(hs[i]);
    }
  }

  /** The lines of the head, and the place of the payload. */
  lemma HeadIsFound(line: string, hs: seq<HeaderLine>, junk: seq<string>, payload: string, text: string)
    requires line != "" && Tight(line) && !Contains(line, CRLF) && AreHeaderLines(hs) && AreLines(junk)
    requires text == Joined([line] + (LineTexts(hs) + junk), CRLF) + BLANK_LINE + payload
    ensures HeadLines(text) == [line] + Shaped(LineTexts(hs) + junk, false, true)
    ensures HeadLines(text)[1..] == Shaped(LineTexts(hs) + junk, false, true)
    ensures 0 <= SplitPoint(text) <= |text| - |BLANK_LINE| && text[SplitPoint(text) + |BLANK_LINE|..] == payload
  {
    hide Contains, Find, Shaped, Joined, IsHeaderLine, RawSplit;
    var lines := LineTexts(hs) + junk;
    AllFree(line, hs, junk);
    LinesAreFound(text, [line] + lines, payload);
    TightIsKept(line);
    KeptCons(line, lines);
  }

  lemma LineIsRead(line: string, ws: seq<string>, hs: seq<HeaderLine>, junk: seq<string>, payload: string, text: string, r: Request)
    requires line != "" && Tight(line) && !Contains(line, CRLF) && Words(line) == ws && |ws| == 3
    requires AreHeaderLines(hs) && IsStop(junk) && AreLines(junk)
    requires text == Joined([line] + (LineTexts(hs) + junk), CRLF) + BLANK_LINE + payload
    ensures Parsed(text, r) == Request(MethodOf(ws[0]), ws[1], Collected(r.headers, LineFields(hs)), payload)
    ensures !Throws(text)
  {
    hide Contains, Find, Shaped, Joined, Words, IsHeaderLine, MethodOf, FieldsOf, LineFields, Collected, RawSplit;
    HeadIsFound(line, hs, junk, payload, text);
    HeaderLinesAreRead(hs, junk);
  }

  /** Every message with three words in its request line is read, whatever the third word is: the first word gives the
      method, the second the path; every header line adds its value under its name to what the request had, in order,
      up to a line of a single character; the payload is all that stands behind the first blank line. */
  lemma MessageIsRead(ws: seq<string>, hs: seq<HeaderLine>, junk: seq<string>, payload: string, r: Request)
    requires |ws| == 3 && AreWords(ws) && AreHeaderLines(hs) && IsStop(junk) && AreLines(junk)
    ensures var text := MessageOf(ws, hs, junk, payload);
            && Parsed(text, r) == Request(MethodOf(ws[0]), ws[1], Collected(r.headers, LineFields(hs)), payload)
            && !Throws(text)
  {
    hide Contains, Joined, Words, AreWords, AreHeaderLines, AreLines, Parsed, Throws, Tight;
    WordsAreFree(ws);
    WordsFound(ws);
    assert BLANK_LINE == "\r\n\r\n";
    LineIsRead(Joined(ws, " "), ws, hs, junk, payload, MessageOf(ws, hs, junk, payload), r);
  }

  /** The words of a line are its pieces between spaces that are not empty. */
  predicate ArePieces(ps: seq<string>) {
    ps != [] && ps[0] != "" && ps[|ps| - 1] != "" && forall i | 0 <= i < |ps| :: ps[i] == "" || IsWord(ps[i])
  }

  lemma {:induction false} PiecesKept(ps: seq<string>)
    requires forall i | 0 <= i < |ps| :: ps[i] == "" || IsWord(ps[i])
    ensures Shaped(ps, false, true) == NonEmpty(ps)
    decreases |ps|
  {
    hide IsWord, Shaped, Trimmed;
    if ps == [] {
      KeptCons("", []);
    } else {
      PiecesKept(ps[1..]);
      KeptCons(ps[0], ps[1..]);
      assert [ps[0]] + ps[1..] == ps;
      if ps[0] == "" {
        NothingKept();
      } else {
        WordIsTight(ps[0]);
        KeptWord(ps[0]);
      }
    }
  }

  lemma NothingKept()
    ensures Kept("", false, true) == []
  {
  }

  lemma SpacedWordsFound(ps: seq<string>)
    requires ArePieces(ps)
    ensures Words(Joined(ps, " ")) == NonEmpty(ps)
  {
    hide Contains, Separable, RawSplit, Shaped, Joined, NonEmpty;
    forall t | t in ps
      ensures Separable(t, " ") && !Contains(t, " ")
    {
      assert t == "" || IsWord(t);
      CharSeparable(t, ' ');
    }
    SplitWhole(Joined(ps, " "), " ", ps);
    PiecesKept(ps);
  }

  lemma {:induction false} PiecesAreFree(ps: seq<string>)
    requires ps != [] && forall i | 0 <= i < |ps| :: ps[i] == "" || IsWord(ps[i])
    ensures !Contains(Joined(ps, " "), CRLF)
    ensures ps[0] != "" ==> Joined(ps, " ") != "" && Joined(ps, " ")[0] != ' '
    ensures ps[|ps| - 1] != "" ==> Joined(ps, " ") != "" && Joined(ps, " ")[|Joined(ps, " ")| - 1] != ' '
    decreases |ps|
  {
    hide Contains;
    EmptyIsFree();
    if ps[0] != "" {
      WordIsTight(ps[0]);
    }
    if |ps| > 1 {
      PiecesAreFree(ps[1..]);
      SpaceIsFree();
      CrlfFreeAppend(ps[0], " ");
      CrlfFreeAppend(ps[0] + " ", Joined(ps[1..], " "));
    }
  }

  /** More than one space between the words of the request line makes no difference. */
  lemma SpacedMessageIsRead(ps: seq<string>, hs: seq<HeaderLine>, junk: seq<string>, payload: string, r: Request)
    requires ArePieces(ps) && |NonEmpty(ps)| == 3 && AreHeaderLines(hs) && IsStop(junk) && AreLines(junk)
    ensures var text, ws := MessageOf(ps, hs, junk, payload), NonEmpty(ps);
            && Parsed(text, r) == Request(MethodOf(ws[0]), ws[1], Collected(r.headers, LineFields(hs)), payload)
            && !Throws(text)
  {
    hide Contains, Joined, Words, AreHeaderLines, AreLines, Parsed, Throws, NonEmpty;
    PiecesAreFree(ps);
    SpacedWordsFound(ps);
    assert BLANK_LINE == "\r\n\r\n";
    LineIsRead(Joined(ps, " "), NonEmpty(ps), hs, junk, payload, MessageOf(ps, hs, junk, payload), r);
  }

  lemma {:induction false} CleanedTwice(ts: seq<string>)
    ensures Shaped(Shaped(ts, false, true), false, true) == Shaped(ts, false, true)
    decreases |ts|
  {
    hide Shaped, Trimmed;
    KeptCons("", []);
    if ts != [] {
      CleanedTwice(ts[1..]);
      KeptCons(ts[0], ts[1..]);
      assert [ts[0]] + ts[1..] == ts;
      TrimmedTwice(ts[0]);
      KeptCons(Trimmed(ts[0]), Shaped(ts[1..], false, true));
      KeptOnce(ts[0], Shaped(ts[1..], false, true));
    }
  }

  lemma TrimmedTwice(t: string)
    ensures Trimmed(Trimmed(t)) == Trimmed(t)
  {
    var before, after := TrimmedMeans(t);
    TightIsKept(Trimmed(t));
  }

  lemma KeptOnce(t: string, ts: seq<string>)
    ensures Kept(t, false, true) + ts == if Trimmed(t) == "" then ts else [Trimmed(t)] + ts
    ensures Trimmed(Trimmed(t)) == Trimmed(t) ==> Kept(Trimmed(t), false, true) == Kept(t, false, true)
  {
  }

  /** Spaces around the lines of the head, and lines of spaces alone, make no difference. */
  lemma PaddingIsIgnored(lines: seq<string>, payload: string, r: Request)
    requires AreLines(lines) && Shaped(lines, false, true) != []
    ensures Parsed(Joined(lines, "\r\n") + "\r\n\r\n" + payload, r) ==
            Parsed(Joined(Shaped(lines, false, true), "\r\n") + "\r\n\r\n" + payload, r)
  {
    hide Contains, Shaped, Joined, Words, MethodOf, FieldsOf, RawSplit, Find;
    var cleaned := Shaped(lines, false, true);
    var padded, bare := Joined(lines, CRLF) + BLANK_LINE + payload, Joined(cleaned, CRLF) + BLANK_LINE + payload;
    assert BLANK_LINE == "\r\n\r\n";
    CleanedAreFree(lines);
    NothingToClean();
    LinesAreFound(padded, lines, payload);
    LinesAreFound(bare, cleaned, payload);
    CleanedTwice(lines);
    assert HeadLines(padded) == cleaned == HeadLines(bare);
  }

  lemma NothingToClean()
    ensures Shaped([], false, true) == []
  {
  }

  lemma {:induction false} CleanedAreFree(lines: seq<string>)
    requires AreLines(lines)
    ensures AreLines(Shaped(lines, false, true))
    decreases |lines|
  {
    hide Contains, Shaped, Trimmed;
    if lines == [] {
      KeptCons("", []);
    } else {
      CleanedAreFree(lines[1..]);
      KeptCons(lines[0], lines[1..]);
      assert [lines[0]] + lines[1..] == lines;
      TrimmedIsFree(lines[0]);
      KeptOnce(lines[0], Shaped(lines[1..], false, true));
    }
  }

  lemma TrimmedIsFree(t: string)
    requires !Contains(t, CRLF)
    ensures !Contains(Trimmed(t), CRLF)
  {
    var before, after := TrimmedMeans(t);
    assert t[|before|..|before| + |Trimmed(t)|] == Trimmed(t);
    SliceFree(t, |before|, |before| + |Trimmed(t)|, CRLF);
  }

  /** Per name: the values it had, then those of its lines in their order. */
  lemma MessageValues(ws: seq<string>, hs: seq<HeaderLine>, junk: seq<string>, payload: string, r: Request, name: string)
    requires |ws| == 3 && AreWords(ws) && AreHeaderLines(hs) && IsStop(junk) && AreLines(junk)
    ensures Values(Parsed(MessageOf(ws, hs, junk, payload), r).headers, name) ==
            Values(r.headers, name) + ValuesOf(LineFields(hs), name)
  {
    hide AreWords, AreHeaderLines, AreLines, Parsed, MessageOf;
    MessageIsRead(ws, hs, junk, payload, r);
    CollectedValues(r.headers, LineFields(hs), name);
  }

  /** A request line of one, two, four or more words leaves the request as it was, whatever stands behind it. */
  lemma OtherwiseUnread(ws: seq<string>, rest: string, r: Request)
    requires ws != [] && |ws| != 3 && AreWords(ws) && Contains("\r\n" + rest, "\r\n\r\n")
    ensures var text := Joined(ws, " ") + ("\r\n" + rest); Parsed(text, r) == r && !Throws(text)
  {
    hide Contains, Shaped, Joined, Words, AreWords, RawSplit, Separable, At;
    var line, tail := Joined(ws, " "), CRLF + rest;
    var text := line + tail;
    WordsAreFree(ws);
    assert BLANK_LINE == "\r\n\r\n" && tail == "\r\n" + rest;
    BlankLineIn(line, tail);
    CrlfSeparable(line);
    LineStarts(line, rest);
    FindPiece(text, CRLF, 0, line);
    AtSplit(text, HeadEnd(text), CRLF, CRLF);
    PieceIsSplit(text, CRLF, 0, line, HeadEnd(text));
    var raw := RawSplit(text, CRLF, 0, HeadEnd(text));
    assert raw != [] && raw == [line] + raw[1..];
    TightIsKept(line);
    KeptCons(line, raw[1..]);
    assert HeadLines(text) == [line] + Shaped(raw[1..], false, true);
    WordsFound(ws);
  }

  lemma LineStarts(line: string, rest: string)
    ensures At(line + (CRLF + rest), 0, line + CRLF)
  {
    var text := line + (CRLF + rest);
    assert text == (line + CRLF) + rest && text[0..] == text;
  }

  lemma BlankLineIn(line: string, tail: string)
    requires Contains(tail, BLANK_LINE)
    ensures Find(line + tail, BLANK_LINE, 0).Some?
  {
    var k := Find(tail, BLANK_LINE, 0).value;
    assert (line + tail)[|line| + k..] == tail[k..];
    assert At(line + tail, |line| + k, BLANK_LINE);
  }

  // ------------------------------------------------------------------ other separators

  /** A text of one line: the words found, and where the head ends. */
  lemma OneLineRead(ws: seq<string>, text: string, r: Request)
    requires |ws| == 3 && AreWords(ws) && HeadEnd(text) == |Joined(ws, " ")| <= |text| && text[..HeadEnd(text)] == Joined(ws, " ")
    requires var found := Find(text, CRLF, 0); found.Some? ==> HeadEnd(text) <= found.value
    ensures Parsed(text, r) == Request(MethodOf(ws[0]), ws[1], r.headers,
                                       if SplitPoint(text) + 4 > |text| then r.payload else text[SplitPoint(text) + 4..])
    ensures Throws(text) <==> SplitPoint(text) + 4 > |text|
  {
    hide Contains, Find, Shaped, Joined, Words, MethodOf, SplitPoint, AreWords;
    var line := Joined(ws, " ");
    WordsAreFree(ws);
    assert RawSplit(text, CRLF, 0, |line|) == [line] by {
      assert text[0..|line|] == line;
    }
    TightIsKept(line);
    KeptCons(line, []);
    assert [line] + [] == [line];
    assert HeadLines(text) == [line];
    WordsFound(ws);
  }

  lemma NoEarlyCrlf(line: string, text: string)
    requires line + "\n" <= text && !Contains(line + "\n", CRLF)
    ensures var found := Find(text, CRLF, 0); found.Some? ==> |line| <= found.value
  {
    var u := line + "\n";
    CrlfFree(u);
    forall k | 0 <= k < |line|
      ensures !At(text, k, CRLF)
    {
      CrlfAt(text, k);
      assert text[k] == u[k] && text[k + 1] == u[k + 1];
    }
  }

  /** A request line with two line feeds behind it, and no blank line of two CRLF anywhere: the payload is read from the
      third character behind the line feeds on, and if there are not two characters to step over the reader throws. */
  lemma LineFeedsLoseTwo(ws: seq<string>, rest: string, r: Request)
    requires |ws| == 3 && AreWords(ws) && var text := Joined(ws, " ") + "\n\n" + rest;
             && !Contains(text, "\r\n\r\n") && Find(text, "\n\n", 0) == Some(|Joined(ws, " ")|)
             && !Contains(Joined(ws, " ") + "\n", CRLF)
    ensures var text := Joined(ws, " ") + "\n\n" + rest;
            && (Throws(text) <==> |rest| < 2)
            && Parsed(text, r) == Request(MethodOf(ws[0]), ws[1], r.headers, if |rest| < 2 then r.payload else rest[2..])
  {
    hide Joined, Words, MethodOf, AreWords, HeadLines, Readable;
    var line := Joined(ws, " ");
    var text := line + "\n\n" + rest;
    assert BLANK_LINE == "\r\n\r\n";
    NoEarlyCrlf(line, text);
    assert text[..|line|] == line;
    OneLineRead(ws, text, r);
    if |rest| >= 2 {
      assert text[|line| + 4..] == rest[2..];
    }
  }

  /** A request line with no separator at all: the payload is the line from its fourth character on. */
  lemma NoSeparator(ws: seq<string>, r: Request)
    requires |ws| == 3 && AreWords(ws) && !Contains(Joined(ws, " "), "\n\n")
    ensures var text := Joined(ws, " ");
            && |text| >= 5 && !Throws(text)
            && Parsed(text, r) == Request(MethodOf(ws[0]), ws[1], r.headers, text[3..])
  {
    hide Words, MethodOf, HeadLines, Readable, Joined;
    var text := Joined(ws, " ");
    WordsAreFree(ws);
    NoLongerSeparator(text);
    OneLineRead(ws, text, r);
    ThreeAreLong(ws);
  }

  lemma NoLongerSeparator(text: string)
    requires !Contains(text, CRLF)
    ensures !Contains(text, BLANK_LINE)
  {
    var found := Find(text, BLANK_LINE, 0);
    if found.Some? {
      AtSplit(text, found.value, CRLF, CRLF);
    }
  }

  lemma ThreeAreLong(ws: seq<string>)
    requires |ws| == 3 && AreWords(ws)
    ensures |Joined(ws, " ")| >= 5
  {
    assert IsWord(ws[0]) && IsWord(ws[1]) && IsWord(ws[2]);
    ThreeJoined(ws[0], ws[1], ws[2]);
    assert ws == [ws[0], ws[1], ws[2]];
  }

  // ------------------------------------------------------------------ printing

  /** One line for each value: name, colon, space, value and the line end. */
  lemma HeaderTextOfOne(name: string, value: string)
    ensures HeaderText([name], map[name := [value]]) == name + ": " + value + "\r\n"
  {
    var headers: Headers := map[name := [value]];
    NameText([name], headers);
    ValueText(name, [value]);
    NoValuesText(name, [value][1..]);
    NoHeaderText([name][1..], headers);
  }

  /** A text that starts with a blank line has no request line. */
  lemma EmptyHeadUnread(payload: string, r: Request)
    ensures Parsed("\r\n\r\n" + payload, r) == r
  {
    var text := "\r\n\r\n" + payload;
    assert BLANK_LINE == "\r\n\r\n";
    assert text[0..] == text;
    assert At(text, 0, BLANK_LINE);
    assert SplitPoint(text) == 0;
  }

  /** The request line as it is printed: the name from the table, one space and the path. */
  lemma RequestLineText(path: string, headers: Headers, payload: string)
    ensures RequestLine(Request(GET, path, headers, payload)) == "GET " + path
    ensures RequestLine(Request(HEAD, path, headers, payload)) == "HEAD " + path
    ensures RequestLine(Request(POST, path, headers, payload)) == "POST " + path
    ensures RequestLine(Request(PUT, path, headers, payload)) == "PUT " + path
    ensures RequestLine(Request(DELETE, path, headers, payload)) == "DELETE " + path
    ensures RequestLine(Request(CONNECT, path, headers, payload)) == "CONNECT " + path
    ensures RequestLine(Request(OPTIONS, path, headers, payload)) == "OPTIONS " + path
    ensures RequestLine(Request(TRACE, path, headers, payload)) == "TRACE " + path
    ensures RequestLine(Request(PATCH, path, headers, payload)) == "PATCH " + path
    ensures RequestLine(Request(UNDEFINED, path, headers, payload)) == "UNDEFINED " + path
  {
  }
}
