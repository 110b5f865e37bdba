/** Which requests the reader restores from their messages. */
module HttpRoundTrip {
  import opened Texts
  import opened Tokenizer
  import opened HttpMessages

  predicate SafeName(name: string) {
    !Contains(name, CRLF) && ':' !in name && (name == "" || name[0] != ' ')
  }

  predicate SafeValue(value: string) {
    !Contains(value, CRLF) && Tight(value)
  }

  predicate SafeField(f: Field) {
    SafeName(f.0) && SafeValue(f.1) && (f.0 != "" || f.1 != "")
  }

  predicate SafePath(path: string) {
    ' ' !in path && !Contains(path, CRLF)
  }

  predicate SafeRequest(r: Request) {
    SafePath(r.path) && forall k, i | k in r.headers && 0 <= i < |r.headers[k]| :: SafeField((k, r.headers[k][i]))
  }

  /** The same method, path and payload, and under every name the same values in the same order. */
  ghost predicate SameRequest(a: Request, b: Request) {
    && a.verb == b.verb && a.path == b.path && a.payload == b.payload
    && forall name: string :: Values(a.headers, name) == Values(b.headers, name)
  }

  // ----------------------------------------------------------------------- values of a name

  function ValuesOf(fields: seq<Field>, name: string): seq<string> {
    if fields == [] then []
    else (if fields[0].0 == name then [fields[0].1] else []) + ValuesOf(fields[1..], name)
  }

  lemma {:induction false} CollectedValues(headers: Headers, fields: seq<Field>, name: string)
    ensures Values(Collected(headers, fields), name) == Values(headers, name) + ValuesOf(fields, name)
    decreases |fields|
  {
    if fields != [] {
      CollectedValues(Put(headers, fields[0].0, fields[0].1), fields[1..], name);
    }
  }

  lemma {:induction false} ValuesOfAppend(fs: seq<Field>, gs: seq<Field>, name: string)
    ensures ValuesOf(fs + gs, name) == ValuesOf(fs, name) + ValuesOf(gs, name)
    decreases |fs|
  {
    if fs == [] {
      assert fs + gs == gs;
    } else {
      assert (fs + gs)[1..] == fs[1..] + gs;
      ValuesOfAppend(fs[1..], gs, name);
    }
  }

  lemma {:induction false} ValuesOfNamed(k: string, values: seq<string>, name: string)
    ensures ValuesOf(FieldsNamed(k, values), name) == if k == name then values else []
    decreases |values|
  {
    if values != [] {
      var rest := FieldsNamed(k, values[1..]);
      assert ([(k, values[0])] + rest)[1..] == rest;
      ValuesOfNamed(k, values[1..], name);
    }
  }

  /** Whatever the order of the walk, the fields give every name its values in their order. */
  lemma {:induction false} ValuesOfFields(order: seq<string>, headers: Headers, name: string)
    requires Distinct(order) && forall k | k in order :: k in headers
    ensures ValuesOf(FieldsIn(order, headers), name) == if name in order then headers[name] else []
    decreases |order|
  {
    if order != [] {
      ValuesOfAppend(FieldsNamed(order[0], headers[order[0]]), FieldsIn(order[1..], headers), name);
      ValuesOfNamed(order[0], headers[order[0]], name);
      ValuesOfFields(order[1..], headers, name);
    }
  }

  // ----------------------------------------------------------------------- lines without a CRLF

  lemma SliceFree(t: string, b: nat, c: nat, x: string)
    requires b <= c <= |t| && !Contains(t, x)
    ensures !Contains(t[b..c], x)
  {
    if Contains(t[b..c], x) {
      SliceContains(t, b, c, x);
    }
  }

  lemma CrlfAt(t: string, k: nat)
    ensures At(t, k, CRLF) <==> k + 1 < |t| && t[k] == '\r' && t[k + 1] == '\n'
  {
    if At(t, k, CRLF) {
      assert t[k..][0] == CRLF[0] && t[k..][1] == CRLF[1];
    }
  }

  lemma CrlfFree(t: string)
    ensures !Contains(t, CRLF) <==> forall k | 0 <= k < |t| - 1 :: !(t[k] == '\r' && t[k + 1] == '\n')
  {
    forall k | 0 <= k
      ensures At(t, k, CRLF) <==> k + 1 < |t| && t[k] == '\r' && t[k + 1] == '\n'
    {
      CrlfAt(t, k);
    }
    if Contains(t, CRLF) {
      var k := Find(t, CRLF, 0).value;
      assert k < |t| - 1 && t[k] == '\r' && t[k + 1] == '\n';
    } else {
      assert forall k | 0 <= k :: !At(t, k, CRLF);
    }
  }

  lemma CrlfFreeAppend(t: string, u: string)
    requires !Contains(t, CRLF) && !Contains(u, CRLF)
    requires t == "" || u == "" || t[|t| - 1] != '\r' || u[0] != '\n'
    ensures !Contains(t + u, CRLF)
  {
    hide Contains;
    CrlfFree(t);
    CrlfFree(u);
    CrlfFree(t + u);
  }

  lemma CrlfSeparable(t: string)
    requires !Contains(t, CRLF)
    ensures Separable(t, CRLF)
  {
    CrlfFree(t);
    CrlfAt(t + CRLF, |t|);
    var k := Find(t + CRLF, CRLF, 0);
    CrlfAt(t + CRLF, k.value);
  }

  lemma CharSeparable(t: string, c: char)
    requires c !in t
    ensures Separable(t, [c]) && !Contains(t, [c])
  {
    AtChar(t + [c], |t|, c);
    var k := Find(t + [c], [c], 0);
    AtChar(t + [c], k.value, c);
    assert c !in t;
    var inside := Find(t, [c], 0);
    if inside.Some? {
      AtChar(t, inside.value, c);
    }
  }

  lemma CharFree(t: string, c: char)
    requires !Contains(t, [c])
    ensures c !in t
  {
    forall k | 0 <= k < |t|
      ensures t[k] != c
    {
      AtChar(t, k, c);
    }
  }

  // ----------------------------------------------------------------------- what reading gives is safe

  lemma FieldIsSafe(line: string)
    requires |line| > 1 && Tight(line) && !Contains(line, CRLF)
    ensures SafeField(FieldOf(line))
  {
    hide Contains, Find;
    var colon := Find(line, ":", 0);
    EmptyIsFree();
    if colon.None? {
      ColonFree(line, |line|);
      assert line[..|line|] == line;
    } else {
      var at := colon.value;
      AtChar(line, at, ':');
      ColonFree(line, at);
      SliceFree(line, 0, at, CRLF);
      var rest := line[at + 1..];
      var value := TrimLeft(rest);
      TrimLeftMeans(rest);
      assert value == line[|line| - |value|..|line|];
      SliceFree(line, |line| - |value|, |line|, CRLF);
      NameOrValue(line, at);
    }
  }

  lemma EmptyIsFree()
    ensures !Contains("", CRLF)
  {
    CrlfFree("");
  }

  lemma ColonFree(line: string, at: nat)
    requires at <= |line|
    requires forall k | 0 <= k < at :: !At(line, k, ":")
    ensures ':' !in line[..at]
  {
    forall k | 0 <= k < at
      ensures line[k] != ':'
    {
      AtChar(line, k, ':');
    }
  }

  /** A line of two characters or more has a name or a value. */
  lemma NameOrValue(line: string, at: nat)
    requires |line| > 1 && Tight(line) && at < |line|
    ensures at > 0 || TrimLeft(line[at + 1..]) != ""
  {
    if at == 0 {
      var rest := line[1..];
      TrimLeftMeans(rest);
      assert rest[|rest| - 1] in rest && rest[..|rest|] == rest;
    }
  }

  predicate SafeLine(l: string) {
    l != "" && Tight(l) && !Contains(l, CRLF)
  }

  lemma {:induction false} FieldsAreSafe(lines: seq<string>, name: string, i: nat)
    requires forall j | 0 <= j < |lines| :: SafeLine(lines[j])
    requires i < |ValuesOf(FieldsOf(lines), name)|
    ensures SafeField((name, ValuesOf(FieldsOf(lines), name)[i]))
    decreases |lines|
  {
    hide Contains, SafeField, FieldOf;
    var f, rest := FieldOf(lines[0]), FieldsOf(lines[1..]);
    assert ([f] + rest)[1..] == rest;
    FieldIsSafe(lines[0]);
    if f.0 != name {
      FieldsAreSafe(lines[1..], name, i);
    } else if i > 0 {
      FieldsAreSafe(lines[1..], name, i - 1);
    } else {
      assert f == (name, ValuesOf(FieldsOf(lines), name)[0]);
    }
  }

  lemma HeadLinesAreSafe(text: string)
    ensures var lines := HeadLines(text); forall j | 0 <= j < |lines| :: SafeLine(lines[j])
  {
    hide Contains, Tight, Tokens;
    var lines := HeadLines(text);
    forall j | 0 <= j < |lines|
      ensures SafeLine(lines[j])
    {
      var from, to := TokensAreTight(text, CRLF, 0, HeadEnd(text), lines[j]);
    }
  }

  lemma WordsAreSafe(line: string, w: string)
    requires !Contains(line, CRLF) && w in Words(line)
    ensures w != "" && SafePath(w)
  {
    var from, to := TokensAreTight(line, " ", 0, |line|, w);
    CharFree(w, ' ');
    SliceFree(line, from, to, CRLF);
  }

  /** Whatever text is read into a fresh request, what it then holds is safe. */
  lemma ReadIsSafe(text: string, m: Method)
    ensures var r := Parsed(text, Fresh(m));
            && SafePath(r.path)
            && forall name: string, i | 0 <= i < |Values(r.headers, name)| :: SafeField((name, Values(r.headers, name)[i]))
  {
    hide Contains, SafeField, HeadLines, Words, Find, FieldOf, SafePath;
    var r := Parsed(text, Fresh(m));
    HeadLinesAreSafe(text);
    if Readable(text) {
      var lines := HeadLines(text);
      WordsAreSafe(lines[0], Words(lines[0])[1]);
      forall name: string, i | 0 <= i < |Values(r.headers, name)|
        ensures SafeField((name, Values(r.headers, name)[i]))
      {
        CollectedValues(map[], FieldsOf(lines[1..]), name);
        FieldsAreSafe(lines[1..], name, i);
      }
    } else {
      EmptyPathIsSafe();
    }
  }

  lemma EmptyPathIsSafe()
    ensures SafePath("")
  {
    EmptyIsFree();
  }

  // ----------------------------------------------------------------------- what is printed is read

  function Head(r: Request): string {
    RequestLine(r) + " " + VERSION
  }

  function Lines(r: Request, fields: seq<Field>): seq<string> {
    [Head(r)] + FieldLines(fields)
  }

  predicate SafeFields(fields: seq<Field>) {
    forall f | f in fields :: SafeField(f)
  }

  predicate Plain(t: string) {
    t != "" && forall i | 0 <= i < |t| :: '.' <= t[i] <= 'Z'
  }

  lemma MethodIsPlain(m: Method)
    ensures Plain(MethodName(m)) && Plain(VERSION) && MethodOf(MethodName(m)) == m
  {
  }

  lemma PlainIsFree(t: string)
    requires Plain(t)
    ensures !Contains(t, CRLF) && ' ' !in t && Tight(t)
  {
    CrlfFree(t);
    assert t[0] != ' ' && t[|t| - 1] != ' ';
  }

  lemma HeadIsFree(r: Request)
    requires !Contains(r.path, CRLF)
    ensures !Contains(Head(r), CRLF) && Tight(Head(r)) && Head(r) != ""
  {
    hide Contains, Plain, MethodName;
    MethodIsPlain(r.verb);
    PlainIsFree(MethodName(r.verb));
    PlainIsFree(VERSION);
    SpaceIsFree();
    CrlfFreeAppend(MethodName(r.verb), " ");
    CrlfFreeAppend(MethodName(r.verb) + " ", r.path);
    CrlfFreeAppend(RequestLine(r), " ");
    CrlfFreeAppend(RequestLine(r) + " ", VERSION);
  }

  lemma SpaceIsFree()
    ensures !Contains(" ", CRLF) && !Contains(": ", CRLF)
  {
    CrlfFree(" ");
    CrlfFree(": ");
  }

  lemma FieldLineIsFree(f: Field)
    requires SafeField(f)
    ensures !Contains(FieldLine(f), CRLF) && FieldLine(f) != ""
  {
    hide Contains;
    SpaceIsFree();
    CrlfFreeAppend(f.0, ": ");
    CrlfFreeAppend(f.0 + ": ", f.1);
  }

  lemma {:induction false} FieldLinesAreFree(fields: seq<Field>, l: string)
    requires SafeFields(fields) && l in FieldLines(fields)
    ensures !Contains(l, CRLF) && l != ""
    decreases |fields|
  {
    hide Contains, SafeField;
    if l == FieldLine(fields[0]) {
      FieldLineIsFree(fields[0]);
    } else {
      FieldLinesAreFree(fields[1..], l);
    }
  }

  /** The words of the request line. */
  lemma HeadWords(r: Request)
    requires SafePath(r.path) && r.path != ""
    ensures Words(Head(r)) == [MethodName(r.verb), r.path, VERSION]
  {
    hide Contains, MethodName, Plain, Separable, At, RawSplit;
    MethodIsPlain(r.verb);
    PlainIsFree(MethodName(r.verb));
    PlainIsFree(VERSION);
    var ts := [MethodName(r.verb), r.path, VERSION];
    CharSeparable(ts[0], ' ');
    CharSeparable(ts[1], ' ');
    CharSeparable(ts[2], ' ');
    ThreeJoined(ts[0], ts[1], ts[2]);
    SplitWhole(Head(r), " ", ts);
    ThreeKept(ts[0], ts[1], ts[2]);
  }

  lemma SplitWhole(s: string, d: string, ts: seq<string>)
    requires d != "" && ts != [] && s == Joined(ts, d) && ts[|ts| - 1] != "" && !Contains(ts[|ts| - 1], d)
    requires forall t | t in ts :: Separable(t, d)
    ensures RawSplit(s, d, 0, |s|) == ts
  {
    hide Contains, Separable, RawSplit;
    assert At(s, 0, Joined(ts, d)) by {
      assert s[0..] == s;
    }
    SplitOfJoined(s, d, 0, ts, |s|);
  }

  lemma ThreeJoined(a: string, b: string, c: string)
    ensures Joined([a, b, c], " ") == a + " " + b + " " + c
  {
    assert [b, c][1..] == [c];
    assert Joined([b, c], " ") == b + " " + c;
    assert [a, b, c][1..] == [b, c];
  }

  lemma ThreeKept(a: string, b: string, c: string)
    requires a != "" && b != "" && c != "" && ' ' !in a && ' ' !in b && ' ' !in c
    ensures NonEmpty(TrimmedAll([a, b, c])) == [a, b, c]
  {
    TightIsKept(a);
    TightIsKept(b);
    TightIsKept(c);
    KeptCons(a, [b, c]);
    KeptCons(b, [c]);
    KeptCons(c, []);
    assert [a] + [b, c] == [a, b, c] && [b] + [c] == [b, c] && [c] + [] == [c];
  }

  lemma KeptCons(t: string, ts: seq<string>)
    ensures Shaped([t] + ts, false, true) == Kept(t, false, true) + Shaped(ts, false, true)
    ensures Shaped([], false, true) == []
  {
    ShapedCons(t, ts, false, true);
  }

  // the header fields

  lemma FieldAt(name: string, rest: string)
    requires ':' !in name
    ensures FieldOf(name + ":" + rest) == (name, TrimLeft(rest))
  {
    var line := name + ":" + rest;
    CharSeparable(name, ':');
    assert line[0..] == line;
    FindPiece(line, ":", 0, name);
    assert line[..|name|] == name && line[|name| + 1..] == rest;
  }

  lemma {:induction false} ShownField(f: Field)
    requires SafeField(f)
    ensures |Trimmed(FieldLine(f))| > 1 && FieldOf(Trimmed(FieldLine(f))) == f
  {
    hide Contains, FieldOf;
    var line := FieldLine(f);
    if f.1 == "" {
      assert line == f.0 + ": " && line[..|line| - 1] == f.0 + ":";
      assert TrimRight(line) == TrimRight(f.0 + ":") == f.0 + ":";
      FieldAt(f.0, "");
      assert f.0 + ":" + "" == f.0 + ":";
    } else {
      TightIsKept(line);
      FieldAt(f.0, " " + f.1);
      assert line == f.0 + ":" + (" " + f.1);
      assert (" " + f.1)[1..] == f.1;
    }
  }

  lemma {:induction false} FieldsReadBack(fields: seq<Field>)
    requires SafeFields(fields)
    ensures FieldsOf(Shaped(FieldLines(fields), false, true)) == fields
    decreases |fields|
  {
    hide SafeField, FieldOf, Trimmed, Shaped;
    if fields == [] {
      KeptCons("", []);
    } else {
      var line, rest := FieldLine(fields[0]), FieldLines(fields[1..]);
      ShownField(fields[0]);
      KeptCons(line, rest);
      FieldsReadBack(fields[1..]);
      var shown := Shaped(rest, false, true);
      assert ([Trimmed(line)] + shown)[1..] == shown;
    }
  }

  lemma {:induction false} NamedAreSafe(name: string, values: seq<string>)
    requires forall i | 0 <= i < |values| :: SafeField((name, values[i]))
    ensures SafeFields(FieldsNamed(name, values))
    decreases |values|
  {
    hide SafeField;
    if values != [] {
      NamedAreSafe(name, values[1..]);
    }
  }

  lemma {:induction false} FieldsInAreSafe(order: seq<string>, headers: Headers)
    requires forall k | k in order :: k in headers
    requires forall k, i | k in headers && 0 <= i < |headers[k]| :: SafeField((k, headers[k][i]))
    ensures SafeFields(FieldsIn(order, headers))
    decreases |order|
  {
    hide SafeField;
    if order != [] {
      NamedAreSafe(order[0], headers[order[0]]);
      FieldsInAreSafe(order[1..], headers);
    }
  }

  // the lines of the message

  lemma {:induction false} JoinedTerminated(h: string, ts: seq<string>, d: string)
    ensures Joined([h] + ts, d) + d == h + d + Terminated(ts, d)
    decreases |ts|
  {
    if ts == [] {
      assert [h] + ts == [h];
    } else {
      assert ([h] + ts)[1..] == ts == [ts[0]] + ts[1..];
      JoinedTerminated(ts[0], ts[1..], d);
    }
  }

  lemma Composed(r: Request, order: seq<string>)
    requires WalkOf(order, r.headers)
    ensures Message(r, order) == Joined(Lines(r, FieldsIn(order, r.headers)), CRLF) + BLANK_LINE + r.payload
  {
    JoinedTerminated(Head(r), FieldLines(FieldsIn(order, r.headers)), CRLF);
  }

  predicate Free(ts: seq<string>) {
    forall i | 0 <= i < |ts| :: ts[i] != "" && !Contains(ts[i], CRLF)
  }

  lemma FirstLine(s: string, begin: nat, ts: seq<string>, end: nat)
    requires ts != [] && Free(ts) && end == begin + |Joined(ts, CRLF)|
    requires At(s, begin, Joined(ts, CRLF)) && At(s, end, CRLF)
    ensures Find(s, CRLF, begin) == Some(begin + |ts[0]|) && At(s, begin + |ts[0]|, CRLF)
    ensures |ts| > 1 ==> At(s, begin + |ts[0]| + 2, Joined(ts[1..], CRLF))
  {
    hide At, Contains, Separable;
    CrlfSeparable(ts[0]);
    if |ts| > 1 {
      AtSplit(s, begin, ts[0] + CRLF, Joined(ts[1..], CRLF));
    }
    AtSplit(s, begin, ts[0], CRLF);
    FindPiece(s, CRLF, begin, ts[0]);
  }

  /** No blank line before the end of the head. */
  lemma {:induction false} NoBlankLine(s: string, begin: nat, ts: seq<string>, end: nat, k: nat)
    requires ts != [] && Free(ts) && end == begin + |Joined(ts, CRLF)| && begin <= k < end
    requires At(s, begin, Joined(ts, CRLF)) && At(s, end, CRLF)
    ensures !At(s, k, BLANK_LINE)
    decreases |ts|
  {
    hide At, Contains, Find;
    FirstLine(s, begin, ts, end);
    AtSplit(s, k, CRLF, CRLF);
    var stop := begin + |ts[0]|;
    if k == stop {
      FirstLine(s, stop + 2, ts[1..], end);
    } else if k == stop + 1 {
      CrlfAt(s, stop);
      CrlfAt(s, k);
    } else if k > stop {
      NoBlankLine(s, stop + 2, ts[1..], end, k);
    }
  }

  /** The reader finds the lines of the head. */
  lemma LinesAreFound(text: string, ts: seq<string>, payload: string)
    requires ts != [] && Free(ts) && text == Joined(ts, CRLF) + BLANK_LINE + payload
    ensures SplitPoint(text) == |Joined(ts, CRLF)|
    ensures RawSplit(text, CRLF, 0, HeadEnd(text)) == ts
    ensures text[SplitPoint(text) + |BLANK_LINE|..] == payload
  {
    hide At, Contains, Separable, RawSplit, Joined;
    var end := |Joined(ts, CRLF)|;
    MessageParts(text, Joined(ts, CRLF), payload);
    var found := Find(text, BLANK_LINE, 0);
    if found.value < end {
      NoBlankLine(text, 0, ts, end, found.value);
    }
    forall t | t in ts
      ensures Separable(t, CRLF)
    {
      CrlfSeparable(t);
    }
    SplitOfJoined(text, CRLF, 0, ts, end);
  }

  lemma MessageParts(text: string, head: string, payload: string)
    requires text == head + BLANK_LINE + payload
    ensures At(text, 0, head) && At(text, |head|, BLANK_LINE) && At(text, |head|, CRLF)
    ensures text[|head| + |BLANK_LINE|..] == payload
  {
    assert text[0..] == text;
    assert text[|head|..] == BLANK_LINE + payload;
    AtSplit(text, |head|, CRLF, CRLF);
  }

  // ----------------------------------------------------------------------- the theorems

  lemma LinesAreFree(r: Request, fields: seq<Field>)
    requires !Contains(r.path, CRLF) && SafeFields(fields)
    ensures Free(Lines(r, fields))
  {
    hide Contains, SafeField, Head;
    HeadIsFree(r);
    var ts := FieldLines(fields);
    forall i | 0 <= i < |ts|
      ensures ts[i] != "" && !Contains(ts[i], CRLF)
    {
      FieldLinesAreFree(fields, ts[i]);
    }
  }

  lemma SafeIsRead(r: Request, order: seq<string>, m: Method)
    requires WalkOf(order, r.headers) && r.path != "" && SafeRequest(r)
    ensures var text, fields := Message(r, order), FieldsIn(order, r.headers);
            Parsed(text, Fresh(m)) == Request(r.verb, r.path, Collected(map[], fields), r.payload) && !Throws(text)
  {
    hide Contains, SafeField, Head, Message, Find, FieldLines, FieldsIn, Shaped, Joined, Words, MethodName;
    var text, fields := Message(r, order), FieldsIn(order, r.headers);
    FieldsInAreSafe(order, r.headers);
    LinesAreFree(r, fields);
    Composed(r, order);
    LinesAreFound(text, Lines(r, fields), r.payload);
    HeadIsFree(r);
    TightIsKept(Head(r));
    KeptCons(Head(r), FieldLines(fields));
    var rest := Shaped(FieldLines(fields), false, true);
    assert HeadLines(text) == [Head(r)] + rest;
    assert HeadLines(text)[1..] == rest;
    FieldsReadBack(fields);
    HeadWords(r);
    MethodIsPlain(r.verb);
  }

  lemma PathRoundTrip(r: Request, order: seq<string>, m: Method)
    requires WalkOf(order, r.headers) && r.path != ""
    ensures SameRequest(Parsed(Message(r, order), Fresh(m)), r) <==> SafeRequest(r)
    ensures SafeRequest(r) ==> !Throws(Message(r, order))
  {
    hide SafeField, SafePath, Message, Parsed, FieldsIn, Throws;
    var back := Parsed(Message(r, order), Fresh(m));
    if SafeRequest(r) {
      SafeIsRead(r, order, m);
      forall name: string
        ensures Values(back.headers, name) == Values(r.headers, name)
      {
        CollectedValues(map[], FieldsIn(order, r.headers), name);
        ValuesOfFields(order, r.headers, name);
      }
    }
    if SameRequest(back, r) {
      ReadIsSafe(Message(r, order), m);
      forall k, i | k in r.headers && 0 <= i < |r.headers[k]|
        ensures SafeField((k, r.headers[k][i]))
      {
        assert Values(back.headers, k) == Values(r.headers, k);
      }
    }
  }

  /** The message of a request without a path reads nothing. */
  lemma EmptyPathIsNotRead(r: Request, order: seq<string>, m: Method)
    requires WalkOf(order, r.headers) && r.path == ""
    ensures Parsed(Message(r, order), Fresh(m)) == Fresh(m) && !Throws(Message(r, order))
  {
    hide Contains, Head, Message, FieldLines, FieldsIn, Shaped, Joined, Words, MethodName;
    var text, fields := Message(r, order), FieldsIn(order, r.headers);
    EmptyIsFree();
    HeadIsFree(r);
    TightIsKept(Head(r));
    FirstLineIsFound(r, order);
    var rest := RawSplit(text, CRLF, 0, HeadEnd(text))[1..];
    KeptCons(Head(r), rest);
    assert HeadLines(text) == [Head(r)] + Shaped(rest, false, true);
    TwoWords(r);
  }

  lemma FirstLineIsFound(r: Request, order: seq<string>)
    requires WalkOf(order, r.headers) && !Contains(r.path, CRLF)
    ensures var text := Message(r, order);
            var raw := RawSplit(text, CRLF, 0, HeadEnd(text)); raw != [] && raw == [Head(r)] + raw[1..]
  {
    hide Contains, Head, Message, FieldLines, FieldsIn, Joined, Separable, At;
    var text, fields := Message(r, order), FieldsIn(order, r.headers);
    Composed(r, order);
    MessageParts(text, Joined(Lines(r, fields), CRLF), r.payload);
    HeadIsFree(r);
    CrlfSeparable(Head(r));
    StartsWithHead(r, order);
    PieceIsSplit(text, CRLF, 0, Head(r), HeadEnd(text));
    FindPiece(text, CRLF, 0, Head(r));
    AtSplit(text, HeadEnd(text), CRLF, CRLF);
  }

  lemma StartsWithHead(r: Request, order: seq<string>)
    requires WalkOf(order, r.headers)
    ensures At(Message(r, order), 0, Head(r) + CRLF)
  {
    var text := Message(r, order);
    assert text == Head(r) + CRLF + (HeaderText(order, r.headers) + CRLF + r.payload);
    assert text[0..] == text;
  }

  lemma TwoWords(r: Request)
    requires r.path == ""
    ensures |Words(Head(r))| == 2
  {
    hide Contains, MethodName, Plain, Separable, At, RawSplit;
    MethodIsPlain(r.verb);
    PlainIsFree(MethodName(r.verb));
    PlainIsFree(VERSION);
    var ts := [MethodName(r.verb), "", VERSION];
    CharSeparable(ts[0], ' ');
    CharSeparable(ts[1], ' ');
    CharSeparable(ts[2], ' ');
    ThreeJoined(ts[0], ts[1], ts[2]);
    SplitWhole(Head(r), " ", ts);
    TightIsKept(ts[0]);
    TightIsKept(ts[2]);
    KeptCons(ts[0], ["", VERSION]);
    KeptCons("", [VERSION]);
    KeptCons(VERSION, []);
    assert [ts[0]] + ["", VERSION] == ts && [""] + [VERSION] == ["", VERSION] && [VERSION] + [] == [VERSION];
  }

  /** What a request must be to be restored by a fresh request whose method is `m`. */
  predicate Restorable(r: Request, m: Method) {
    if r.path == "" then r.verb == m && r.payload == "" && forall k | k in r.headers :: r.headers[k] == []
    else SafeRequest(r)
  }

  /** A request is restored from its message exactly when it is restorable: its path, names and values are safe, or it
      has no path and nothing to restore. For every payload, every walk of the header map and every fresh request. */
  lemma RequestRoundTrip(r: Request, order: seq<string>, m: Method)
    requires WalkOf(order, r.headers)
    ensures SameRequest(Parsed(Message(r, order), Fresh(m)), r) <==> Restorable(r, m)
    ensures Restorable(r, m) ==> !Throws(Message(r, order))
  {
    hide SafeRequest, Message, Parsed, Throws;
    if r.path == "" {
      EmptyPathIsNotRead(r, order, m);
      var back := Fresh(m);
      if SameRequest(back, r) {
        forall k | k in r.headers
          ensures r.headers[k] == []
        {
          assert Values(back.headers, k) == Values(r.headers, k);
        }
      }
    } else {
      PathRoundTrip(r, order, m);
    }
  }

  /** The objects: the message is put together by the two printers and read by a fresh request. */
  method Resent(r: HttpRequest, order: seq<string>, m: Method) returns (copy: HttpRequest, ok: bool)
    requires WalkOf(order, r.headers.headers)
    ensures fresh(copy) && fresh(copy.headers)
    ensures SameRequest(copy.Contents(), r.Contents()) <==> Restorable(r.Contents(), m)
    ensures Restorable(r.Contents(), m) ==> ok
  {
    hide Parsed, Restorable, SameRequest, HeaderText, RequestLine, Throws;
    var line := r.ToString();
    var fields := r.headers.Str(order);
    var text := line + " " + VERSION + CRLF + fields + CRLF + r.payload;
    copy := new HttpRequest(m);
    ok := copy.Parse(text);
    RequestRoundTrip(r.Contents(), order, m);
  }
}
