/** Quoted strings of the JSON reader and printer: scanning, unescaping and escaping. */
module JsonStrings {
  import opened Texts

  const BACKSPACE: char := '\U{8}'
  const FORM_FEED: char := '\U{C}'

  // ---------------------------------------------------------------- scanning

  /** The opening quote seen by the scan from `i`; a backslash hides the character behind it. */
  function OpenQuote(s: string, i: nat, escape: bool): (o: Option<nat>)
    ensures o.Some? ==> i <= o.value < |s| && s[o.value] == '"'
    decreases |s| - i
  {
    if i >= |s| then None
    else if escape then OpenQuote(s, i + 1, false)
    else if s[i] == '\\' then OpenQuote(s, i + 1, true)
    else if s[i] == '"' then Some(i)
    else if Skippable(s[i]) then OpenQuote(s, i + 1, false)
    else None
  }

  /** The closing quote seen by the scan from `i`. */
  function CloseQuote(s: string, i: nat, escape: bool): (o: Option<nat>)
    ensures o.Some? ==> i <= o.value < |s| && s[o.value] == '"'
    decreases |s| - i
  {
    if i >= |s| then None
    else if escape then CloseQuote(s, i + 1, false)
    else if s[i] == '\\' then CloseQuote(s, i + 1, true)
    else if s[i] == '"' then Some(i)
    else CloseQuote(s, i + 1, false)
  }

  /** The decoded string and the position after its closing quote. */
  datatype Quoted = Quoted(text: string, next: nat)

  function ParseQuoted(s: string, from: nat): (r: Option<Quoted>)
    ensures r.Some? ==> from + 2 <= r.value.next <= |s|
  {
    match OpenQuote(s, from, false)
    case None => None
    case Some(o) =>
      match CloseQuote(s, o + 1, false)
      case None => None
      case Some(q) => Some(Quoted(Decode(s[o + 1..q]), q + 1))
  }

  /** The number of backslashes that end `s[..j]`, not looking before `from`. */
  function Run(s: string, from: nat, j: nat): (n: nat)
    requires j <= |s|
    ensures n <= j
    ensures forall k | j - n <= k < j :: s[k] == '\\'
  {
    if j <= from || s[j - 1] != '\\' then 0 else 1 + Run(s, from, j - 1)
  }

  /** A quote with an even run of backslashes before it, counted from `from`. */
  predicate Unescaped(s: string, from: nat, j: nat) {
    j < |s| && s[j] == '"' && Run(s, from, j) % 2 == 0
  }

  /** The scan by flag is the scan by parity: it stops at the first unescaped quote, if there is one. */
  lemma ScanByParity(s: string, from: nat)
    ensures match CloseQuote(s, from, false)
            case Some(q) => from <= q && Unescaped(s, from, q) && forall j | from <= j < q :: !Unescaped(s, from, j)
            case None => forall j | from <= j :: !Unescaped(s, from, j)
  {
    if from < |s| {
      ScanByParityFrom(s, from, from, false);
    }
  }

  lemma {:induction false} ScanByParityFrom(s: string, from: nat, i: nat, escape: bool)
    requires from <= i <= |s|
    requires escape == (Run(s, from, i) % 2 == 1)
    requires forall j | from <= j < i :: !Unescaped(s, from, j)
    ensures match CloseQuote(s, i, escape)
            case Some(q) => from <= q && Unescaped(s, from, q) && forall j | from <= j < q :: !Unescaped(s, from, j)
            case None => forall j | from <= j :: !Unescaped(s, from, j)
    decreases |s| - i
  {
    if i < |s| {
      if escape {
        ScanByParityFrom(s, from, i + 1, false);
      } else if s[i] == '\\' {
        ScanByParityFrom(s, from, i + 1, true);
      } else if s[i] != '"' {
        ScanByParityFrom(s, from, i + 1, false);
      }
    }
  }

  // ------------------------------------------------------------- raw contents

  /** What may stand between two quotes: no unescaped quote, and no escape left open at the end. */
  predicate Raw(t: string) {
    |t| == 0 || (t[0] != '"' && if t[0] == '\\' then |t| >= 2 && Raw(t[2..]) else Raw(t[1..]))
  }

  /** The scan ends at `q` exactly when a raw content and then a quote stand there. */
  lemma {:induction false} ScanRaw(s: string, i: nat, q: nat)
    requires i <= q < |s|
    ensures CloseQuote(s, i, false) == Some(q) <==> Raw(s[i..q]) && s[q] == '"'
    decreases q - i
  {
    if i < q {
      var t := s[i..q];
      if s[i] == '\\' {
        if i + 2 <= q {
          assert t[2..] == s[i + 2..q];
          ScanRaw(s, i + 2, q);
        } else {
          assert |t| == 1;
          assert CloseQuote(s, i, false) == CloseQuote(s, i + 2, false);
        }
      } else if s[i] != '"' {
        assert t[1..] == s[i + 1..q];
        ScanRaw(s, i + 1, q);
      }
    }
  }

  /** Standing on an opening quote, the reader takes exactly a raw content and its closing quote. */
  lemma QuotedAt(s: string, i: nat, raw: string)
    requires At(s, i, "\"" + raw + "\"") && Raw(raw)
    ensures ParseQuoted(s, i) == Some(Quoted(Decode(raw), i + |raw| + 2))
  {
    AtQuoted(s, i, raw);
    QuotedFrom(s, i, raw);
  }

  lemma QuotedFrom(s: string, i: nat, raw: string)
    requires i + 1 + |raw| < |s| && s[i] == '"' && At(s, i + 1, raw) && s[i + 1 + |raw|] == '"' && Raw(raw)
    ensures ParseQuoted(s, i) == Some(Quoted(Decode(raw), i + |raw| + 2))
  {
    hide Decode, Raw, ParseQuoted;
    AtSlice(s, i + 1, raw);
    QuotedBetween(s, i, i + 1 + |raw|);
  }

  /** Standing on an opening quote at `i`, the reader stops at `q` exactly if a raw content lies between. */
  lemma QuotedBetween(s: string, i: nat, q: nat)
    requires i < q < |s| && s[i] == '"' && s[q] == '"' && Raw(s[i + 1..q])
    ensures ParseQuoted(s, i) == Some(Quoted(Decode(s[i + 1..q]), q + 1))
  {
    ScanRaw(s, i + 1, q);
  }

  lemma AtQuoted(s: string, i: nat, raw: string)
    ensures At(s, i, "\"" + raw + "\"") <==>
              i + 1 + |raw| < |s| && s[i] == '"' && At(s, i + 1, raw) && s[i + 1 + |raw|] == '"'
  {
    AtSplit(s, i, "\"" + raw, "\"");
    AtSplit(s, i, "\"", raw);
    AtChar(s, i, '"');
    AtChar(s, i + 1 + |raw|, '"');
  }

  lemma QuotedOnly(s: string, i: nat) returns (raw: string)
    requires i < |s| && s[i] == '"' && ParseQuoted(s, i).Some?
    ensures At(s, i, "\"" + raw + "\"") && Raw(raw)
    ensures ParseQuoted(s, i) == Some(Quoted(Decode(raw), i + |raw| + 2))
  {
    var q := ParseQuoted(s, i).value.next - 1;
    raw := s[i + 1..q];
    ScanRaw(s, i + 1, q);
    AtQuoted(s, i, raw);
  }

  // ---------------------------------------------------- unescaping, escaping

  /** The character an escape stands for; `\b` stands for a space. */
  function Meaning(c: char): Option<char> {
    if c == '"' || c == '\\' || c == '/' then Some(c)
    else if c == 'b' then Some(' ')
    else if c == 'f' then Some(FORM_FEED)
    else if c == 'n' then Some('\n')
    else if c == 'r' then Some('\r')
    else if c == 't' then Some('\t')
    else None
  }

  /** What an escape is decoded to: `\u` keeps its backslash, other unknown escapes vanish. */
  function Unescape(c: char): string {
    if c == 'u' then ['\\', c]
    else match Meaning(c) case Some(d) => [d] case None => ""
  }

  function Decode(t: string): string {
    if |t| == 0 then ""
    else if t[0] != '\\' then [t[0]] + Decode(t[1..])
    else DecodeEscaped(t[1..])
  }

  /** The rest of the decoding just behind a backslash. */
  function DecodeEscaped(t: string): string {
    if |t| == 0 then "" else Unescape(t[0]) + Decode(t[1..])
  }

  /** What is still to come with `t` left to read, `escape` telling whether a backslash was just read. */
  function Pending(t: string, escape: bool): string {
    if escape then DecodeEscaped(t) else Decode(t)
  }

  /** What one character adds to the decoded text. */
  function Piece(c: char, escape: bool): string {
    if escape then Unescape(c) else if c == '\\' then [] else [c]
  }

  lemma PendingStep(t: string, escape: bool)
    requires |t| > 0
    ensures Pending(t, escape) == Piece(t[0], escape) + Pending(t[1..], !escape && t[0] == '\\')
  {
  }

  /** The switch over the character behind a backslash. */
  method UnescapeChar(c: char) returns (piece: string)
    ensures piece == Unescape(c)
  {
    match c {
      case '"' => piece := [c];
      case '\\' => piece := [c];
      case '/' => piece := [c];
      case 'b' => piece := [' '];
      case 'f' => piece := [FORM_FEED];
      case 'n' => piece := ['\n'];
      case 'r' => piece := ['\r'];
      case 't' => piece := ['\t'];
      case 'u' => piece := ['\\', c];
      case _ => piece := [];
    }
  }

  method ProcessString(str: string) returns (out: string)
    ensures out == Decode(str)
  {
    hide Decode, DecodeEscaped, Unescape;
    out := "";
    var escape := false;
    var i := 0;
    PendingEmpty();
    assert str[0..] == str;
    while i < |str|
      invariant 0 <= i <= |str|
      invariant out + Pending(str[i..], escape) == Pending(str, false)
    {
      var c := str[i];
      PendingStep(str[i..], escape);
      assert str[i..][1..] == str[i + 1..];
      if !escape {
        if c == '\\' {
          escape := true;
        } else {
          out := out + [c];
        }
      } else {
        var piece := UnescapeChar(c);
        out := out + piece;
        escape := false;
      }
      i := i + 1;
    }
    assert str[i..] == "";
  }

  lemma PendingEmpty()
    ensures forall escape :: Pending("", escape) == ""
  {
  }

  /** The letter that a character is escaped with. */
  function Letter(c: char): Option<char> {
    if c == '"' || c == '/' then Some(c)
    else if c == BACKSPACE then Some('b')
    else if c == FORM_FEED then Some('f')
    else if c == '\n' then Some('n')
    else if c == '\r' then Some('r')
    else if c == '\t' then Some('t')
    else None
  }

  function EscapeChar(c: char): string {
    match Letter(c) case Some(d) => ['\\', d] case None => [c]
  }

  function Encode(x: string): string {
    if |x| == 0 then "" else EscapeChar(x[0]) + Encode(x[1..])
  }

  lemma {:induction false} EncodeAppend(x: string, c: char)
    ensures Encode(x + [c]) == Encode(x) + EscapeChar(c)
  {
    if |x| == 0 {
      assert Encode([c]) == EscapeChar(c) + Encode([c][1..]);
    } else {
      assert (x + [c])[1..] == x[1..] + [c];
      EncodeAppend(x[1..], c);
    }
  }

  method JsonizeString(str: string) returns (out: string)
    ensures out == Encode(str)
  {
    out := "";
    for i := 0 to |str|
      invariant out == Encode(str[..i])
    {
      var c := str[i];
      EncodeAppend(str[..i], c);
      assert str[..i + 1] == str[..i] + [c];
      match c {
        case '"' => out := out + ['\\', c];
        case '/' => out := out + ['\\', c];
        case '\U{8}' => out := out + "\\b";
        case '\U{C}' => out := out + "\\f";
        case '\n' => out := out + "\\n";
        case '\r' => out := out + "\\r";
        case '\t' => out := out + "\\t";
        case _ => out := out + [c];
      }
    }
    assert str[..|str|] == str;
  }

  /** Reads the quoted string at `from`; on failure the position is lost and the text is empty. */
  method ParseQuotedText(s: string, from: nat) returns (text: string, next: Option<nat>)
    requires from <= |s|
    ensures match ParseQuoted(s, from)
            case Some(q) => text == q.text && next == Some(q.next)
            case None => text == "" && next == None
  {
    var end := |s|;
    var idx := from;
    if end == 0 {
      return "", None;
    }
    var openQuote := false;
    var escape := false;
    var attrBegin := idx;
    while idx < end
      invariant from <= idx <= end
      invariant openQuote ==> from <= attrBegin < idx && OpenQuote(s, from, false) == Some(attrBegin)
      invariant openQuote ==> CloseQuote(s, attrBegin + 1, false) == CloseQuote(s, idx, escape)
      invariant !openQuote ==> OpenQuote(s, from, false) == OpenQuote(s, idx, escape)
    {
      if escape {
        escape := false;
      } else if s[idx] == '\\' {
        escape := true;
      } else if s[idx] == '"' {
        if openQuote {
          break;
        }
        attrBegin := idx;
        openQuote := true;
      } else {
        if !openQuote && !Skippable(s[idx]) {
          return "", None;
        }
      }
      idx := idx + 1;
    }
    if idx == end {
      return "", None;
    }
    text := ProcessString(s[attrBegin + 1..idx]);
    next := Some(idx + 1);
  }

  // --------------------------------------------------- the exact string domain

  /** No backspace, and every backslash is followed by one of `after`. */
  predicate Spelled(x: string, after: set<char>) {
    forall i | 0 <= i < |x| :: SpelledAt(x, after, i)
  }

  predicate SpelledAt(x: string, after: set<char>, i: nat)
    requires i < |x|
  {
    x[i] != BACKSPACE && (x[i] == '\\' ==> i + 1 < |x| && x[i + 1] in after)
  }

  /** The spelling of a string, from its first character on. */
  lemma SpelledHead(x: string, after: set<char>)
    requires |x| > 0 && '\\' !in after && BACKSPACE !in after
    ensures x[0] != '\\' ==> (Spelled(x, after) <==> x[0] != BACKSPACE && Spelled(x[1..], after))
    ensures x[0] == '\\' ==> (Spelled(x, after) <==> |x| > 1 && x[1] in after && Spelled(x[2..], after))
  {
    assert Spelled(x, after) ==> SpelledAt(x, after, 0);
    SpelledFrom(x, after, 1);
    if x[0] == '\\' && |x| > 1 {
      SpelledFrom(x, after, 2);
      assert SpelledAt(x, after, 0) <==> x[1] in after;
      assert x[1] in after ==> SpelledAt(x, after, 1);
    }
  }

  lemma SpelledFrom(x: string, after: set<char>, n: nat)
    requires n <= |x|
    ensures Spelled(x[n..], after) <==> forall i | n <= i < |x| :: SpelledAt(x, after, i)
  {
    var y := x[n..];
    assert forall i | 0 <= i < |y| :: SpelledAt(y, after, i) == SpelledAt(x, after, i + n);
    assert forall i | n <= i < |x| :: SpelledAt(y, after, i - n) == SpelledAt(x, after, i);
  }

  /** Printing and reading a string never makes it longer. */
  lemma {:induction false} ReadBackNotLonger(x: string)
    ensures |Decode(Encode(x))| <= |x|
  {
    if |x| > 0 {
      if x[0] != '\\' {
        DecodePlain(x);
        ReadBackNotLonger(x[1..]);
      } else if |x| > 1 {
        DecodeBackslash(x);
        ReadBackNotLonger(x[2..]);
      } else {
        assert x == "\\";
        DecodeLoneBackslash();
      }
    }
  }

  /** What becomes of a first character that is not a backslash. */
  lemma DecodePlain(x: string)
    requires |x| > 0 && x[0] != '\\'
    ensures Decode(Encode(x)) == [if x[0] == BACKSPACE then ' ' else x[0]] + Decode(Encode(x[1..]))
  {
    EscapedOnce(x[0]);
    DecodeBehind(EscapeChar(x[0]), Encode(x[1..]));
  }

  /** An escape is read back as the character it was made from, but for the backspace. */
  lemma EscapedOnce(c: char)
    ensures var e := EscapeChar(c);
            (|e| == 1 && e[0] == c) ||
            (|e| == 2 && e[0] == '\\' && e[1] != '\\' && Unescape(e[1]) == [if c == BACKSPACE then ' ' else c])
    ensures |EscapeChar(c)| == 1 ==> c != BACKSPACE && c != '"' && c != '/'
  {
  }

  /** The decoding of a single piece and what follows it. */
  lemma DecodeBehind(e: string, rest: string)
    ensures |e| == 1 && e[0] != '\\' ==> Decode(e + rest) == e + Decode(rest)
    ensures |e| == 2 && e[0] == '\\' ==> Decode(e + rest) == Unescape(e[1]) + Decode(rest)
  {
    var t := e + rest;
    if |e| == 1 {
      assert t[1..] == rest;
    } else if |e| == 2 {
      assert t[1..][1..] == rest;
    }
  }

  /** What becomes of a backslash and the character behind it. */
  function BehindBackslash(c: char): string {
    var f := EscapeChar(c);
    if |f| == 2 then f else Unescape(c)
  }

  lemma DecodeBackslash(x: string)
    requires |x| > 1 && x[0] == '\\'
    ensures Decode(Encode(x)) == BehindBackslash(x[1]) + Decode(Encode(x[2..]))
  {
    hide Decode, Encode;
    EncodeTwo(x);
    EscapedOnce(x[1]);
    DecodeThrough(EscapeChar(x[0]), EscapeChar(x[1]), Encode(x[2..]));
  }

  lemma EncodeTwo(x: string)
    requires |x| > 1
    ensures Encode(x) == EscapeChar(x[0]) + (EscapeChar(x[1]) + Encode(x[2..]))
  {
    assert x[1..][1..] == x[2..];
  }

  /** The decoding of a backslash, the piece it hides, and what follows. */
  lemma DecodeThrough(a: string, f: string, rest: string)
    requires |a| == 1 && a[0] == '\\'
    ensures |f| == 1 ==> Decode(a + (f + rest)) == Unescape(f[0]) + Decode(rest)
    ensures |f| == 2 && f[0] == '\\' && f[1] != '\\' ==> Decode(a + (f + rest)) == f + Decode(rest)
  {
    var t := a + (f + rest);
    assert t[1..] == f + rest;
    if |f| == 1 {
      assert t[1..][1..] == rest;
    } else if |f| == 2 && f[0] == '\\' && f[1] != '\\' {
      var g := t[1..][1..];
      assert g == [f[1]] + rest;
      DecodeBehind([f[1]], rest);
      assert f == [f[0]] + [f[1]];
    }
  }

  lemma DecodeLoneBackslash()
    ensures Decode(Encode("\\")) == ""
  {
    assert Encode("\\") == "\\" + Encode("\\"[1..]) == "\\";
    assert Decode("\\") == DecodeEscaped("\\"[1..]);
  }

  /** The exact domain of the string round trip, without the quotes around it. */
  lemma {:induction false} StringDomain(x: string)
    ensures Decode(Encode(x)) == x <==> Spelled(x, {'u', '/', '"'})
  {
    hide Decode, Encode, Spelled;
    var after := {'u', '/', '"'};
    if |x| == 0 {
      assert x == "";
      StringDomainEmpty(after);
    } else if x[0] != '\\' {
      DecodePlain(x);
      StringDomain(x[1..]);
      SpelledHead(x, after);
      HeadTail(x, 1, [if x[0] == BACKSPACE then ' ' else x[0]], Decode(Encode(x[1..])));
    } else if |x| == 1 {
      assert x == "\\";
      DecodeLoneBackslash();
      SpelledHead(x, after);
    } else {
      DecodeBackslash(x);
      StringDomain(x[2..]);
      SpelledHead(x, after);
      ReadBackNotLonger(x[2..]);
      BehindBackslashKept(x[1]);
      if |BehindBackslash(x[1])| == 2 {
        HeadTail(x, 2, BehindBackslash(x[1]), Decode(Encode(x[2..])));
        assert x[..2] == [x[0], x[1]];
      }
    }
  }

  lemma StringDomainEmpty(after: set<char>)
    ensures Decode(Encode("")) == "" && Spelled("", after)
  {
  }

  lemma BehindBackslashKept(c: char)
    ensures BehindBackslash(c) == ['\\', c] <==> c in {'u', '/', '"'}
    ensures |BehindBackslash(c)| < 2 ==> c !in {'u', '/', '"'}
    ensures |BehindBackslash(c)| <= 2
  {
  }

  lemma HeadTail(x: string, n: nat, head: string, tail: string)
    requires n <= |x| && |head| == n
    ensures head + tail == x <==> head == x[..n] && tail == x[n..]
  {
    assert x == x[..n] + x[n..];
    assert (head + tail)[..n] == head && (head + tail)[n..] == tail;
  }

  /** Whether a piece and what follows it make a raw content. */
  lemma RawBehind(e: string, rest: string)
    ensures |e| == 1 && e[0] != '\\' ==> (Raw(e + rest) <==> e[0] != '"' && Raw(rest))
    ensures |e| == 2 && e[0] == '\\' ==> (Raw(e + rest) <==> Raw(rest))
  {
    var t := e + rest;
    if |e| == 1 {
      assert t[1..] == rest;
    } else if |e| == 2 {
      assert t[2..] == rest;
    }
  }

  /** Of the strings that are read back, those print as a raw content in which no backslash meets a quote. */
  lemma {:induction false} RawDomain(x: string)
    requires Spelled(x, {'u', '/', '"'})
    ensures Raw(Encode(x)) <==> Spelled(x, {'u', '/'})
  {
    if |x| > 0 {
      EscapedOnce(x[0]);
      SpelledHead(x, {'u', '/', '"'});
      SpelledHead(x, {'u', '/'});
      if x[0] != '\\' {
        RawDomain(x[1..]);
        RawBehind(EscapeChar(x[0]), Encode(x[1..]));
      } else {
        RawDomain(x[2..]);
        EncodeTwo(x);
        EscapedOnce(x[1]);
        RawThrough(EscapeChar(x[0]), EscapeChar(x[1]), Encode(x[2..]));
      }
    }
  }

  /** Whether a backslash, the piece it hides, and what follows make a raw content. */
  lemma RawThrough(a: string, f: string, rest: string)
    requires |a| == 1 && a[0] == '\\'
    ensures |f| == 1 ==> (Raw(a + (f + rest)) <==> Raw(rest))
    ensures |f| == 2 && f[0] == '\\' && f[1] != '\\' ==> (Raw(a + (f + rest)) <==> f[1] != '"' && Raw(rest))
  {
    var t := a + (f + rest);
    if |f| == 1 {
      assert t[2..] == rest;
    } else if |f| == 2 {
      assert t[2..][0] == f[1];
      assert t[2..][1..] == rest;
    }
  }

  /** The exact domain through the quotes: the quote behind a backslash is lost. */
  lemma QuotedDomain(x: string)
    ensures ParseQuoted("\"" + Encode(x) + "\"", 0) == Some(Quoted(x, |Encode(x)| + 2))
            <==> Spelled(x, {'u', '/'})
  {
    var s := "\"" + Encode(x) + "\"";
    var n := |Encode(x)|;
    assert s[1..n + 1] == Encode(x);
    ScanRaw(s, 1, n + 1);
    StringDomain(x);
    if Spelled(x, {'u', '/'}) {
      SpelledWider(x);
    }
    if Spelled(x, {'u', '/', '"'}) {
      RawDomain(x);
    }
  }

  lemma SpelledWider(x: string)
    requires Spelled(x, {'u', '/'})
    ensures Spelled(x, {'u', '/', '"'})
  {
    assert forall i | 0 <= i < |x| && SpelledAt(x, {'u', '/'}, i) :: SpelledAt(x, {'u', '/', '"'}, i);
  }
}
