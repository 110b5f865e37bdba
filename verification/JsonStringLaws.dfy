/** What strings become when they are printed and when they are read, character by character. */
module JsonStringLaws {
  import opened Texts
  import opened JsonStrings

  // ------------------------------------------------------------------- printing

  lemma {:induction false} EncodeConcat(x: string, y: string)
    ensures Encode(x + y) == Encode(x) + Encode(y)
    decreases |x|
  {
    if x == "" {
      assert x + y == y;
    } else {
      assert (x + y)[1..] == x[1..] + y;
      EncodeConcat(x[1..], y);
    }
  }

  /** The seven characters that are escaped and their letters; every other character, a backslash too, is printed as it is. */
  lemma EncodeOne(c: char)
    ensures Encode([c]) ==
            if c == '"' then "\\\""
            else if c == '/' then "\\/"
            else if c == '\U{8}' then "\\b"
            else if c == '\U{C}' then "\\f"
            else if c == '\n' then "\\n"
            else if c == '\r' then "\\r"
            else if c == '\t' then "\\t"
            else [c]
  {
    assert [c][1..] == "";
    assert Encode([c]) == EscapeChar(c) + Encode("");
  }

  predicate Control(c: char) {
    c == '\U{8}' || c == '\U{C}' || c == '\n' || c == '\r' || c == '\t'
  }

  /** The character is no control character, and a quote or a slash stands behind a backslash. */
  predicate PrintedAt(t: string, i: nat)
    requires i < |t|
  {
    !Control(t[i]) && (t[i] == '"' || t[i] == '/' ==> i > 0 && t[i - 1] == '\\')
  }

  function Count(t: string, c: char): nat {
    if t == "" then 0 else (if t[0] == c then 1 else 0) + Count(t[1..], c)
  }

  lemma {:induction false} CountConcat(t: string, u: string, c: char)
    ensures Count(t + u, c) == Count(t, c) + Count(u, c)
    decreases |t|
  {
    if t == "" {
      assert t + u == u;
    } else {
      assert (t + u)[1..] == t[1..] + u;
      CountConcat(t[1..], u, c);
    }
  }

  lemma {:induction false} CountNone(t: string, c: char)
    ensures c !in t <==> Count(t, c) == 0
    decreases |t|
  {
    if t != "" {
      assert t == [t[0]] + t[1..];
      CountNone(t[1..], c);
    }
  }

  /** No control character is printed, a quote or a slash only behind a backslash, and exactly the spaces of the string. */
  lemma {:induction false} EncodeShape(x: string)
    ensures var e := Encode(x);
            && (forall i | 0 <= i < |e| :: PrintedAt(e, i))
            && Count(e, ' ') == Count(x, ' ')
    decreases |x|
  {
    if x != "" {
      var e, f := EscapeChar(x[0]), Encode(x[1..]);
      EncodeShape(x[1..]);
      EscapeShape(x[0]);
      CountConcat(e, f, ' ');
      ShapeJoined(e, f);
    }
  }

  lemma EscapeShape(c: char)
    ensures var e := EscapeChar(c);
            && (forall i | 0 <= i < |e| :: PrintedAt(e, i))
            && Count(e, ' ') == if c == ' ' then 1 else 0
  {
    var e := EscapeChar(c);
    if |e| == 2 {
      assert e[1..] == [e[1]] && [e[1]][1..] == "";
    } else {
      assert e[1..] == "";
    }
  }

  lemma ShapeJoined(e: string, f: string)
    requires (forall i | 0 <= i < |e| :: PrintedAt(e, i)) && (forall i | 0 <= i < |f| :: PrintedAt(f, i))
    ensures forall i | 0 <= i < |e + f| :: PrintedAt(e + f, i)
  {
    var g := e + f;
    forall i | 0 <= i < |g|
      ensures PrintedAt(g, i)
    {
      if i >= |e| {
        assert PrintedAt(f, i - |e|);
      } else {
        assert PrintedAt(e, i);
      }
    }
  }

  // -------------------------------------------------------------------- reading

  /** No escape is left open at the end. */
  predicate Complete(t: string) {
    t == "" || if t[0] == '\\' then |t| >= 2 && Complete(t[2..]) else Complete(t[1..])
  }

  lemma {:induction false} DecodeConcat(a: string, b: string)
    requires Complete(a)
    ensures Decode(a + b) == Decode(a) + Decode(b)
    decreases |a|
  {
    hide Decode, Unescape;
    if a == "" {
      assert a + b == b;
      DecodeNothing();
    } else if a[0] == '\\' {
      DecodeFirst(a);
      DecodeFirst(a + b);
      assert (a + b)[2..] == a[2..] + b && (a + b)[1] == a[1];
      DecodeConcat(a[2..], b);
      Regrouped(Unescape(a[1]), Decode(a[2..]), Decode(b));
    } else {
      DecodeFirst(a);
      DecodeFirst(a + b);
      assert (a + b)[1..] == a[1..] + b;
      DecodeConcat(a[1..], b);
      Regrouped([a[0]], Decode(a[1..]), Decode(b));
    }
  }

  lemma Regrouped(x: string, y: string, z: string)
    ensures (x + y) + z == x + (y + z)
  {
  }

  lemma DecodeNothing()
    ensures Decode("") == ""
  {
  }

  lemma DecodeFirst(t: string)
    requires t != ""
    ensures t[0] != '\\' ==> Decode(t) == [t[0]] + Decode(t[1..])
    ensures t[0] == '\\' && |t| >= 2 ==> Decode(t) == Unescape(t[1]) + Decode(t[2..])
  {
    if |t| >= 2 {
      assert t[1..][0] == t[1] && t[1..][1..] == t[2..];
    }
  }

  /** Behind a complete part every character but the backslash stands for itself. */
  lemma DecodePlainChar(a: string, c: char, b: string)
    requires Complete(a) && c != '\\'
    ensures Decode(a + ([c] + b)) == Decode(a) + [c] + Decode(b)
  {
    DecodeConcat(a, [c] + b);
    assert ([c] + b)[1..] == b;
  }

  /** And an escape for what the table says: a `b` for a space, a `u` for itself with its backslash,
      a letter that is not in the table for nothing. */
  lemma DecodeEscape(a: string, c: char, b: string)
    requires Complete(a)
    ensures Decode(a + (['\\', c] + b)) ==
            Decode(a)
            + (if c == '"' then "\"" else if c == '\\' then "\\" else if c == '/' then "/"
               else if c == 'b' then " " else if c == 'f' then "\U{C}" else if c == 'n' then "\n"
               else if c == 'r' then "\r" else if c == 't' then "\t" else if c == 'u' then "\\u" else "")
            + Decode(b)
  {
    DecodeConcat(a, ['\\', c] + b);
    var t := ['\\', c] + b;
    assert t[1..] == [c] + b && t[1..][1..] == b;
    assert Decode(t) == Unescape(c) + Decode(b);
  }

  /** An escape left open at the end stands for nothing. */
  lemma DecodeOpen(a: string)
    requires Complete(a)
    ensures Decode(a + "\\") == Decode(a)
  {
    DecodeConcat(a, "\\");
    assert "\\"[1..] == "";
    assert Decode("\\") == "";
  }

  // ------------------------------------------------------------- before the opening quote

  /** What the scan steps over before the opening quote: blanks, and backslashes with any character behind them. */
  predicate Lead(t: string) {
    t == "" ||
    (if t[0] == '\\' then |t| >= 2 && Lead(t[2..])
     else (t[0] == ' ' || t[0] == '\n' || t[0] == '\r' || t[0] == '\t') && Lead(t[1..]))
  }

  /** The opening quote is at `q` exactly when such a lead and then a quote stand there. */
  lemma {:induction false} OpeningQuote(s: string, i: nat, q: nat)
    requires i <= q < |s|
    ensures OpenQuote(s, i, false) == Some(q) <==> Lead(s[i..q]) && s[q] == '"'
    decreases q - i
  {
    if i < q {
      var t := s[i..q];
      if s[i] == '\\' {
        if i + 2 <= q {
          assert t[2..] == s[i + 2..q];
          OpeningQuote(s, i + 2, q);
          assert OpenQuote(s, i, false) == OpenQuote(s, i + 2, false);
        } else {
          assert |t| == 1;
          assert OpenQuote(s, i, false) == OpenQuote(s, i + 2, false);
        }
      } else if s[i] != '"' {
        assert t[1..] == s[i + 1..q];
        OpeningQuote(s, i + 1, q);
      }
    }
  }
}
