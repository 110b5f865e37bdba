/** The layout of the JSON printer, over the characters and the lines of its text. */
module JsonLayout {
  import opened Texts
  import opened JsonStrings
  import opened JsonNumbers
  import opened JsonStringLaws
  import opened JsonGrammar
  import opened JsonPrinter
  import opened Tokenizer
  import JsonNumberLaws

  // ------------------------------------------------------------------- compact

  /** The compact text of a tree. */
  function Dense(o: Ordered): string {
    match o
    case OObj(ms) => "{" + DenseMembers(ms) + "}"
    case OArr(es) => "[" + DenseItems(es) + "]"
    case OStr(t) => "\"" + Encode(t) + "\""
    case ONum(x) => PrintNumber(x)
    case OBool(b) => if b then "true" else "false"
    case ONull => "null"
  }

  function DenseMembers(ms: Members): string {
    match ms
    case NoMember => ""
    case AMember(k, v, rest) =>
      "\"" + Encode(k) + "\":" + Dense(v) + (if rest == NoMember then "" else ",") + DenseMembers(rest)
  }

  function DenseItems(es: Items): string {
    match es
    case NoItem => ""
    case AnItem(v, rest) => Dense(v) + (if rest == NoItem then "" else ",") + DenseItems(rest)
  }

  /** A compact print is the dense text, whatever the indentation level. */
  lemma {:induction false} CompactIsDense(o: Ordered, indent: int)
    ensures Print(o, true, indent) == Dense(o)
    decreases o
  {
    hide Encode, PrintMembers, PrintItems, DenseMembers, DenseItems;
    match o
    case OObj(ms) =>
      CompactMembers(ms, indent);
      DenseBrackets("{", DenseMembers(ms), "}");
    case OArr(es) =>
      CompactItems(es, indent);
      DenseBrackets("[", DenseItems(es), "]");
    case _ =>
  }

  lemma DenseBrackets(open: string, inner: string, close: string)
    ensures open + ("" + (inner + ("" + close))) == open + inner + close
  {
  }

  lemma {:induction false} CompactMembers(ms: Members, indent: int)
    ensures PrintMembers(ms, true, indent) == DenseMembers(ms)
    decreases ms
  {
    hide Encode, Print, Dense;
    match ms
    case NoMember =>
    case AMember(k, v, rest) =>
      CompactIsDense(v, indent + 1);
      CompactMembers(rest, indent);
      DenseMember(Encode(k), Dense(v), if rest == NoMember then "" else ",", DenseMembers(rest));
  }

  lemma DenseMember(k: string, v: string, comma: string, more: string)
    ensures "" + (("\"" + k + "\"" + (":" + v)) + ((comma + "") + more)) == "\"" + k + "\":" + v + comma + more
  {
  }

  lemma {:induction false} CompactItems(es: Items, indent: int)
    ensures PrintItems(es, true, indent) == DenseItems(es)
    decreases es
  {
    hide Print, Dense;
    match es
    case NoItem =>
    case AnItem(v, rest) =>
      CompactIsDense(v, indent + 1);
      CompactItems(rest, indent);
      DenseItem(Dense(v), if rest == NoItem then "" else ",", DenseItems(rest));
  }

  lemma DenseItem(v: string, comma: string, more: string)
    ensures "" + (v + ((comma + "") + more)) == v + comma + more
  {
  }

  /** The spaces in the strings and keys of a tree. */
  function StringSpaces(o: Ordered): nat {
    match o
    case OObj(ms) => MemberSpaces(ms)
    case OArr(es) => ItemSpaces(es)
    case OStr(t) => Count(t, ' ')
    case _ => 0
  }

  function MemberSpaces(ms: Members): nat {
    match ms case NoMember => 0 case AMember(k, v, rest) => Count(k, ' ') + StringSpaces(v) + MemberSpaces(rest)
  }

  function ItemSpaces(es: Items): nat {
    match es case NoItem => 0 case AnItem(v, rest) => StringSpaces(v) + ItemSpaces(rest)
  }

  /** The blanks a text may have, of which only spaces, and these only in strings, are printed compactly. */
  function Allowed(c: char, spaces: nat): nat {
    if c == ' ' then spaces else 0
  }

  predicate IsBlankChar(c: char) {
    c == ' ' || c == '\n' || c == '\r' || c == '\t'
  }

  lemma CountEncoded(x: string, c: char)
    requires IsBlankChar(c)
    ensures Count(Encode(x), c) == Allowed(c, Count(x, ' '))
  {
    EncodeShape(x);
    if c != ' ' {
      NoSuch(Encode(x), c);
    }
  }

  lemma NoSuch(t: string, c: char)
    requires (forall i | 0 <= i < |t| :: PrintedAt(t, i)) && Control(c)
    ensures Count(t, c) == 0
  {
    forall i | 0 <= i < |t|
      ensures t[i] != c
    {
      assert PrintedAt(t, i);
    }
    CountNone(t, c);
  }

  lemma CountNumber(x: real, c: char)
    requires IsBlankChar(c)
    ensures Count(PrintNumber(x), c) == 0
  {
    var d, f := JsonNumberLaws.PrintShape(x);
    var t := PrintNumber(x);
    assert c !in d && c !in f;
    CountNone(t, c);
  }

  /** The parts of a text count one by one. */
  lemma CountThree(t: string, u: string, v: string, c: char)
    ensures Count(t + u + v, c) == Count(t, c) + Count(u, c) + Count(v, c)
  {
    CountConcat(t + u, v, c);
    CountConcat(t, u, c);
  }

  lemma CountMarks(c: char)
    requires IsBlankChar(c)
    ensures forall t | t in {"", "{", "}", "[", "]", "\"", "\":", ",", "true", "false", "null"} :: Count(t, c) == 0
  {
    forall t | t in {"", "{", "}", "[", "]", "\"", "\":", ",", "true", "false", "null"}
      ensures Count(t, c) == 0
    {
      CountNone(t, c);
    }
  }

  /** For every tree, order and level: a compact print has no line end, no tab and no space outside its strings. */
  lemma {:induction false} CompactBlanks(o: Ordered, indent: int, c: char)
    requires IsBlankChar(c)
    ensures Count(Print(o, true, indent), c) == Allowed(c, StringSpaces(o))
    decreases o
  {
    CompactIsDense(o, indent);
    DenseBlanks(o, c);
  }

  lemma {:induction false} DenseBlanks(o: Ordered, c: char)
    requires IsBlankChar(c)
    ensures Count(Dense(o), c) == Allowed(c, StringSpaces(o))
    decreases o
  {
    hide Encode, Count;
    CountMarks(c);
    match o
    case OObj(ms) =>
      MembersBlanks(ms, c);
      CountThree("{", DenseMembers(ms), "}", c);
    case OArr(es) =>
      ItemsBlanks(es, c);
      CountThree("[", DenseItems(es), "]", c);
    case OStr(t) =>
      CountEncoded(t, c);
      CountThree("\"", Encode(t), "\"", c);
    case ONum(x) => CountNumber(x, c);
    case _ =>
  }

  lemma {:induction false} MembersBlanks(ms: Members, c: char)
    requires IsBlankChar(c)
    ensures Count(DenseMembers(ms), c) == Allowed(c, MemberSpaces(ms))
    decreases ms
  {
    hide Encode, Count, Dense;
    CountMarks(c);
    match ms
    case NoMember =>
    case AMember(k, v, rest) =>
      DenseBlanks(v, c);
      MembersBlanks(rest, c);
      CountEncoded(k, c);
      var comma := if rest == NoMember then "" else ",";
      CountThree("\"", Encode(k), "\":", c);
      CountThree("\"" + Encode(k) + "\":", Dense(v), comma, c);
      CountConcat("\"" + Encode(k) + "\":" + Dense(v) + comma, DenseMembers(rest), c);
  }

  lemma {:induction false} ItemsBlanks(es: Items, c: char)
    requires IsBlankChar(c)
    ensures Count(DenseItems(es), c) == Allowed(c, ItemSpaces(es))
    decreases es
  {
    hide Count, Dense;
    CountMarks(c);
    match es
    case NoItem =>
    case AnItem(v, rest) =>
      DenseBlanks(v, c);
      ItemsBlanks(rest, c);
      CountThree(Dense(v), if rest == NoItem then "" else ",", DenseItems(rest), c);
  }

  // ------------------------------------------------------------------- line by line

  function Spaces(n: nat): (t: string)
    ensures |t| == n && forall i | 0 <= i < n :: t[i] == ' '
  {
    seq(n, _ => ' ')
  }

  function Level(indent: int): nat {
    if indent < 0 then 0 else indent
  }

  /** The lines of a member or an element: its first line behind `lead`, its last line before `tail`. */
  function Block(lead: string, lines: seq<string>, tail: string): seq<string>
    requires lines != []
  {
    if |lines| == 1 then [lead + lines[0] + tail]
    else [lead + lines[0]] + lines[1..|lines| - 1] + [lines[|lines| - 1] + tail]
  }

  /** The lines of the print that is not compact. */
  function Lines(o: Ordered, indent: int): (ls: seq<string>)
    ensures ls != []
  {
    match o
    case OObj(ms) => ["{"] + MemberLines(ms, indent) + [Spaces(4 * Level(indent)) + "}"]
    case OArr(es) => ["["] + ItemLines(es, indent) + [Spaces(4 * Level(indent)) + "]"]
    case OStr(t) => ["\"" + Encode(t) + "\""]
    case ONum(x) => [PrintNumber(x)]
    case OBool(b) => [if b then "true" else "false"]
    case ONull => ["null"]
  }

  /** Each member on lines of its own, one level deeper, behind its key, a colon and a space; commas between. */
  function MemberLines(ms: Members, indent: int): seq<string> {
    match ms
    case NoMember => []
    case AMember(k, v, rest) =>
      Block(Spaces(4 * Level(indent) + 4) + "\"" + Encode(k) + "\": ", Lines(v, indent + 1), if rest == NoMember then "" else ",")
      + MemberLines(rest, indent)
  }

  function ItemLines(es: Items, indent: int): seq<string> {
    match es
    case NoItem => []
    case AnItem(v, rest) =>
      Block(Spaces(4 * Level(indent) + 4), Lines(v, indent + 1), if rest == NoItem then "" else ",")
      + ItemLines(rest, indent)
  }

  // joining lines

  const CRLF: string := "\r\n"

  lemma {:induction false} TerminatedAppend(a: seq<string>, b: seq<string>)
    ensures Terminated(a + b, CRLF) == Terminated(a, CRLF) + Terminated(b, CRLF)
    decreases |a|
  {
    if a == [] {
      assert a + b == b;
    } else {
      assert (a + b)[1..] == a[1..] + b;
      TerminatedAppend(a[1..], b);
    }
  }

  lemma TerminatedOne(t: string)
    ensures Terminated([t], CRLF) == t + CRLF
  {
    assert [t][1..] == [];
  }

  lemma {:induction false} TerminatedLast(ls: seq<string>, tail: string)
    requires ls != []
    ensures Terminated(ls[..|ls| - 1] + [ls[|ls| - 1] + tail], CRLF) == Joined(ls, CRLF) + tail + CRLF
    decreases |ls|
  {
    var n := |ls| - 1;
    var changed := ls[..n] + [ls[n] + tail];
    if n == 0 {
      assert changed == [ls[0] + tail];
      TerminatedOne(ls[0] + tail);
    } else {
      assert changed[1..] == ls[1..][..n - 1] + [ls[1..][n - 1] + tail];
      TerminatedLast(ls[1..], tail);
      assert Terminated(changed, CRLF) == ls[0] + CRLF + (Joined(ls[1..], CRLF) + tail + CRLF);
    }
  }

  lemma JoinedLead(lead: string, ls: seq<string>)
    requires ls != []
    ensures Joined([lead + ls[0]] + ls[1..], CRLF) == lead + Joined(ls, CRLF)
  {
    hide Joined;
    JoinedCons(lead + ls[0], ls[1..], CRLF);
    JoinedCons(ls[0], ls[1..], CRLF);
    assert [ls[0]] + ls[1..] == ls;
  }

  lemma TerminatedBlock(lead: string, lines: seq<string>, tail: string)
    requires lines != []
    ensures Terminated(Block(lead, lines, tail), CRLF) == lead + Joined(lines, CRLF) + tail + CRLF
  {
    var ls := [lead + lines[0]] + lines[1..];
    JoinedLead(lead, lines);
    TerminatedLast(ls, tail);
    var n := |lines| - 1;
    if n == 0 {
      assert ls[..n] + [ls[n] + tail] == Block(lead, lines, tail);
    } else {
      assert ls[..n] == [lead + lines[0]] + lines[1..n] && ls[n] == lines[n];
    }
  }

  lemma JoinedBrackets(open: string, inner: seq<string>, close: string)
    ensures Joined([open] + inner + [close], CRLF) == open + CRLF + Terminated(inner, CRLF) + close
  {
    TerminatedAppend([open], inner);
    TerminatedOne(open);
    var ls := [open] + inner + [close];
    assert ls[..|ls| - 1] == [open] + inner;
    JoinedLast([open] + inner, close);
  }

  lemma {:induction false} JoinedLast(ls: seq<string>, close: string)
    ensures Joined(ls + [close], CRLF) == Terminated(ls, CRLF) + close
    decreases |ls|
  {
    if ls == [] {
      assert ls + [close] == [close];
    } else {
      assert (ls + [close])[1..] == ls[1..] + [close];
      JoinedLast(ls[1..], close);
    }
  }

  // the print is the lines

  lemma {:induction false} IndentationIs(n: int)
    ensures Indentation(n) == Spaces(4 * Level(n))
    decreases n
  {
    if n > 0 {
      IndentationIs(n - 1);
      assert Spaces(4 * Level(n - 1)) + "    " == Spaces(4 * Level(n));
    }
  }

  lemma MarginsAre(indent: int)
    ensures Margin(false, indent) == Spaces(4 * Level(indent))
    ensures InnerMargin(false, indent) == Spaces(4 * Level(indent) + 4)
  {
    IndentationIs(indent);
    assert Spaces(4 * Level(indent)) + "    " == Spaces(4 * Level(indent) + 4);
  }

  /** A print that is not compact is its lines with line ends between them. */
  lemma {:induction false} PrintIsLines(o: Ordered, indent: int)
    ensures Print(o, false, indent) == Joined(Lines(o, indent), CRLF)
    decreases o
  {
    hide Encode, Spaces, Margin, Terminated, MemberLines, ItemLines, PrintMembers, PrintItems;
    MarginsAre(indent);
    match o
    case OObj(ms) =>
      MembersAreLines(ms, indent);
      JoinedBrackets("{", MemberLines(ms, indent), Spaces(4 * Level(indent)) + "}");
      Bracketed("{", PrintMembers(ms, false, indent), Spaces(4 * Level(indent)), "}");
    case OArr(es) =>
      ItemsAreLines(es, indent);
      JoinedBrackets("[", ItemLines(es, indent), Spaces(4 * Level(indent)) + "]");
      Bracketed("[", PrintItems(es, false, indent), Spaces(4 * Level(indent)), "]");
    case _ =>
  }

  lemma Bracketed(open: string, inner: string, margin: string, close: string)
    ensures open + (CRLF + (inner + (margin + close))) == open + CRLF + inner + (margin + close)
  {
  }

  lemma {:induction false} MembersAreLines(ms: Members, indent: int)
    ensures PrintMembers(ms, false, indent) == Terminated(MemberLines(ms, indent), CRLF)
    decreases ms
  {
    hide Encode, Spaces, InnerMargin, Print, Lines, Block, Terminated, Joined;
    NoLines();
    match ms
    case NoMember =>
    case AMember(k, v, rest) =>
      MarginsAre(indent);
      PrintIsLines(v, indent + 1);
      MembersAreLines(rest, indent);
      var inner, comma := Spaces(4 * Level(indent) + 4), if rest == NoMember then "" else ",";
      var lead := inner + "\"" + Encode(k) + "\": ";
      TerminatedBlock(lead, Lines(v, indent + 1), comma);
      TerminatedAppend(Block(lead, Lines(v, indent + 1), comma), MemberLines(rest, indent));
      LineOfMember(inner, Encode(k), Print(v, false, indent + 1), comma, PrintMembers(rest, false, indent));
  }

  lemma NoLines()
    ensures Terminated([], CRLF) == ""
  {
  }

  lemma LineOfMember(inner: string, k: string, v: string, comma: string, more: string)
    ensures inner + ((("\"" + k + "\"") + (": " + v)) + ((comma + "\r\n") + more)) ==
            (inner + "\"" + k + "\": " + v + comma + CRLF) + more
  {
  }

  lemma {:induction false} ItemsAreLines(es: Items, indent: int)
    ensures PrintItems(es, false, indent) == Terminated(ItemLines(es, indent), CRLF)
    decreases es
  {
    hide Spaces, InnerMargin, Print, Lines, Block, Terminated, Joined;
    NoLines();
    match es
    case NoItem =>
    case AnItem(v, rest) =>
      MarginsAre(indent);
      PrintIsLines(v, indent + 1);
      ItemsAreLines(rest, indent);
      var inner, comma := Spaces(4 * Level(indent) + 4), if rest == NoItem then "" else ",";
      TerminatedBlock(inner, Lines(v, indent + 1), comma);
      TerminatedAppend(Block(inner, Lines(v, indent + 1), comma), ItemLines(rest, indent));
      LineOfItem(inner, Print(v, false, indent + 1), comma, PrintItems(rest, false, indent));
  }

  lemma LineOfItem(inner: string, v: string, comma: string, more: string)
    ensures inner + (v + ((comma + "\r\n") + more)) == (inner + v + comma + CRLF) + more
  {
  }

  // the lines have no line end in them

  predicate OneLine(t: string) {
    '\r' !in t && '\n' !in t
  }

  predicate OneLines(ls: seq<string>) {
    forall i | 0 <= i < |ls| :: OneLine(ls[i])
  }

  lemma OneLineEncoded(x: string)
    ensures OneLine(Encode(x))
  {
    EncodeShape(x);
    NoSuch(Encode(x), '\r');
    NoSuch(Encode(x), '\n');
    CountNone(Encode(x), '\r');
    CountNone(Encode(x), '\n');
  }

  lemma OneLineNumber(x: real)
    ensures OneLine(PrintNumber(x))
  {
    CountNumber(x, '\r');
    CountNumber(x, '\n');
    CountNone(PrintNumber(x), '\r');
    CountNone(PrintNumber(x), '\n');
  }

  lemma OneLineJoined(t: string, u: string)
    ensures OneLine(t + u) <==> OneLine(t) && OneLine(u)
  {
    assert forall c | c in t :: c in t + u;
    assert forall c | c in u :: c in t + u;
  }

  lemma OneLineBlock(lead: string, ls: seq<string>, tail: string)
    requires ls != [] && OneLines(ls) && OneLine(lead) && OneLine(tail)
    ensures OneLines(Block(lead, ls, tail))
  {
    hide OneLine;
    var n := |ls| - 1;
    OneLineJoined(lead, ls[0]);
    OneLineJoined(lead + ls[0], tail);
    OneLineJoined(ls[n], tail);
  }

  lemma OneLineLead(n: nat, k: string)
    ensures OneLine(Spaces(n)) && OneLine(Spaces(n) + "\"" + Encode(k) + "\": ")
  {
    hide Encode;
    OneLineEncoded(k);
  }

  lemma {:induction false} LinesAreOne(o: Ordered, indent: int)
    ensures OneLines(Lines(o, indent))
    decreases o
  {
    hide OneLine, Encode, MemberLines, ItemLines;
    var margin := Spaces(4 * Level(indent));
    OneLineLead(4 * Level(indent), "");
    OneLineMarks();
    match o
    case OObj(ms) =>
      MembersAreOne(ms, indent);
      OneLineJoined(margin, "}");
    case OArr(es) =>
      ItemsAreOne(es, indent);
      OneLineJoined(margin, "]");
    case OStr(t) =>
      OneLineEncoded(t);
      OneLineJoined("\"", Encode(t));
      OneLineJoined("\"" + Encode(t), "\"");
    case ONum(x) => OneLineNumber(x);
    case _ =>
  }

  lemma OneLineMarks()
    ensures forall t | t in {"", "{", "}", "[", "]", "\"", ",", "true", "false", "null"} :: OneLine(t)
  {
  }

  lemma {:induction false} MembersAreOne(ms: Members, indent: int)
    ensures OneLines(MemberLines(ms, indent))
    decreases ms
  {
    hide OneLine, Encode, Lines, Block;
    OneLineMarks();
    match ms
    case NoMember =>
    case AMember(k, v, rest) =>
      LinesAreOne(v, indent + 1);
      MembersAreOne(rest, indent);
      OneLineLead(4 * Level(indent) + 4, k);
      OneLineBlock(Spaces(4 * Level(indent) + 4) + "\"" + Encode(k) + "\": ", Lines(v, indent + 1), if rest == NoMember then "" else ",");
  }

  lemma {:induction false} ItemsAreOne(es: Items, indent: int)
    ensures OneLines(ItemLines(es, indent))
    decreases es
  {
    hide OneLine, Lines, Block;
    OneLineMarks();
    match es
    case NoItem =>
    case AnItem(v, rest) =>
      LinesAreOne(v, indent + 1);
      ItemsAreOne(rest, indent);
      OneLineLead(4 * Level(indent) + 4, "");
      OneLineBlock(Spaces(4 * Level(indent) + 4), Lines(v, indent + 1), if rest == NoItem then "" else ",");
  }

  lemma OneLineSeparable(t: string)
    requires OneLine(t)
    ensures Separable(t, CRLF) && !Contains(t, CRLF)
  {
    AtChars(t + CRLF, |t|);
    var found := Find(t + CRLF, CRLF, 0);
    AtChars(t + CRLF, found.value);
    var inside := Find(t, CRLF, 0);
    if inside.Some? {
      AtChars(t, inside.value);
    }
  }

  lemma AtChars(t: string, k: nat)
    ensures At(t, k, CRLF) <==> k + 1 < |t| && t[k] == '\r' && t[k + 1] == '\n'
  {
    if At(t, k, CRLF) {
      assert t[k..][0] == CRLF[0] && t[k..][1] == CRLF[1];
    }
  }

  /** For every tree, order and level: the print that is not compact, cut at its line ends, is the lines of the layout. */
  lemma PrintedLines(o: Ordered, indent: int)
    ensures RawSplit(Print(o, false, indent), "\r\n", 0, |Print(o, false, indent)|) == Lines(o, indent)
  {
    hide Lines, Separable, Contains, RawSplit, OneLine, Joined, Print;
    var ls := Lines(o, indent);
    var s := Print(o, false, indent);
    PrintIsLines(o, indent);
    LinesAreOne(o, indent);
    forall t | t in ls
      ensures Separable(t, CRLF) && !Contains(t, CRLF)
    {
      OneLineSeparable(t);
    }
    LastLine(o, indent);
    assert At(s, 0, Joined(ls, CRLF)) by {
      assert s[0..] == s;
    }
    SplitOfJoined(s, CRLF, 0, ls, |s|);
  }

  lemma LastLine(o: Ordered, indent: int)
    ensures var ls := Lines(o, indent); ls[|ls| - 1] != ""
  {
    if o.ONum? {
      var d, f := JsonNumberLaws.PrintShape(o.number);
    }
  }
}
