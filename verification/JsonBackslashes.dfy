/** Backslashes between what is printed and what is read.
    The strings of a tree that survives a round trip are all read from quoted pieces of its print, and every
    backslash of the print stands inside the print of one of them. Such strings are spelled so that they are
    read back one by one. */
module JsonBackslashes {
  import opened Texts
  import opened JsonStrings

  predicate Control(c: char) {
    c == BACKSPACE || c == FORM_FEED || c == '\n' || c == '\r' || c == '\t'
  }

  /** A character that is not printed with a backslash, is no letter of such a print, and is no `u`. */
  predicate Inert(c: char) {
    !Control(c) && c != '"' && c != '/' && c != 'f' && c != 'n' && c != 'r' && c != 't' && c != 'u'
  }

  predicate AllInert(t: string) {
    forall i | 0 <= i < |t| :: Inert(t[i])
  }

  /** The number of backslashes. */
  function Count(t: string): nat {
    if |t| == 0 then 0 else (if t[0] == '\\' then 1 else 0) + Count(t[1..])
  }

  lemma {:induction false} CountBound(t: string)
    ensures Count(t) <= |t|
  {
    if |t| > 0 {
      CountBound(t[1..]);
    }
  }

  lemma {:induction false} CountSome(t: string) returns (k: nat)
    requires Count(t) > 0
    ensures k < |t| && t[k] == '\\'
  {
    if t[0] == '\\' {
      k := 0;
    } else {
      k := CountSome(t[1..]);
      k := k + 1;
    }
  }

  lemma CountCons(c: char, t: string)
    ensures Count([c] + t) == (if c == '\\' then 1 else 0) + Count(t)
    ensures AllInert([c] + t) <==> Inert(c) && AllInert(t)
  {
    var u := [c] + t;
    assert u[1..] == t;
    assert u[0] == c && forall i | 1 <= i < |u| :: u[i] == t[i - 1];
    assert forall i | 0 <= i < |t| :: t[i] == u[i + 1];
  }

  /** No backslash is followed by a control character. */
  predicate Quiet(raw: string) {
    forall i | 0 <= i < |raw| - 1 :: QuietAt(raw, i)
  }

  predicate QuietAt(raw: string, i: nat)
    requires i + 1 < |raw|
  {
    raw[i] == '\\' ==> !Control(raw[i + 1])
  }

  lemma QuietTail(raw: string, n: nat)
    requires Quiet(raw) && n <= |raw|
    ensures Quiet(raw[n..])
  {
    var t := raw[n..];
    assert forall i | 0 <= i < |t| - 1 :: QuietAt(t, i) <==> QuietAt(raw, i + n);
  }

  // ------------------------------------------------------------------ decoding

  /** `d` characters of a raw content hold twice the backslashes of an inert text decoded from them,
      or one less if a `u` follows. */
  predicate Doubled(raw: string, c: nat, d: nat, n: nat) {
    && c <= d <= |raw| && AllInert(raw[c..d])
    && (Count(raw[c..d]) >= 2 * n || (d < |raw| && raw[d] == 'u' && Count(raw[c..d]) + 1 >= 2 * n))
  }

  lemma DecodeHead(raw: string)
    requires Raw(raw) && raw != ""
    ensures raw[0] != '\\' ==> Decode(raw) == [raw[0]] + Decode(raw[1..]) && Raw(raw[1..])
    ensures raw[0] == '\\' ==> |raw| >= 2 && Decode(raw) == Unescape(raw[1]) + Decode(raw[2..]) && Raw(raw[2..])
  {
    if raw[0] == '\\' {
      assert raw[1..][1..] == raw[2..];
    }
  }

  lemma {:induction false} DecodePrefix(raw: string, b: nat) returns (d: nat)
    requires Raw(raw) && Quiet(raw) && b <= |Decode(raw)| && AllInert(Decode(raw)[..b])
    ensures Doubled(raw, 0, d, Count(Decode(raw)[..b]))
    decreases |raw|
  {
    hide Decode, Raw, Count, Quiet, Doubled;
    var out := Decode(raw);
    if b == 0 {
      d := 0;
      NothingDoubled(raw, out);
    } else {
      assert raw != "" by { DecodeEmpty(); }
      DecodeHead(raw);
      assert Inert(out[..b][0]);
      if raw[0] != '\\' {
        QuietTail(raw, 1);
        assert out[..b] == [raw[0]] + Decode(raw[1..])[..b - 1];
        CountCons(raw[0], Decode(raw[1..])[..b - 1]);
        d := DecodePrefix(raw[1..], b - 1);
        d := PlainDoubled(raw, d, Count(Decode(raw[1..])[..b - 1]));
      } else {
        d := DecodeEscapePrefix(raw, b);
      }
    }
  }

  lemma DecodeEmpty()
    ensures Decode("") == ""
  {
  }

  lemma NothingDoubled(raw: string, out: string)
    ensures Doubled(raw, 0, 0, Count(out[..0]))
  {
  }

  lemma PlainDoubled(raw: string, d': nat, n: nat) returns (d: nat)
    requires raw != "" && raw[0] != '\\' && Inert(raw[0]) && Doubled(raw[1..], 0, d', n)
    ensures Doubled(raw, 0, d, n)
  {
    d := d' + 1;
    assert raw[0..d] == [raw[0]] + raw[1..][0..d'];
    CountCons(raw[0], raw[1..][0..d']);
  }

  lemma EscapeDoubled(raw: string, d': nat, m: nat, n: nat) returns (d: nat)
    requires |raw| >= 2 && raw[0] == '\\' && Inert(raw[1]) && Doubled(raw[2..], 0, d', m)
    requires n == m || (n == m + 1 && raw[1] == '\\')
    ensures Doubled(raw, 0, d, n)
  {
    d := d' + 2;
    var t := raw[2..][0..d'];
    assert raw[0..d] == [raw[0]] + ([raw[1]] + t);
    CountCons(raw[1], t);
    CountCons(raw[0], [raw[1]] + t);
  }

  lemma EscapedLetter(c: char)
    requires !Control(c) && Unescape(c) != "" && Inert(Unescape(c)[0])
    ensures c == '\\' || c == 'b' || c == 'u'
    ensures |Unescape(c)| == if c == 'u' then 2 else 1
    ensures Unescape(c)[0] == '\\' <==> c != 'b'
    ensures c == 'u' ==> Unescape(c)[1] == 'u'
  {
  }

  lemma VanishedLetter(c: char)
    requires !Control(c) && Unescape(c) == ""
    ensures Inert(c)
  {
  }

  lemma {:induction false} DecodeEscapePrefix(raw: string, b: nat) returns (d: nat)
    requires Raw(raw) && Quiet(raw) && 0 < b <= |Decode(raw)| && AllInert(Decode(raw)[..b])
    requires raw != "" && raw[0] == '\\'
    ensures Doubled(raw, 0, d, Count(Decode(raw)[..b]))
    decreases |raw|, 0
  {
    hide Decode, Raw, Count, Doubled, Unescape, Inert;
    DecodeHead(raw);
    QuietTail(raw, 2);
    assert QuietAt(raw, 0);
    var c, out, rest := raw[1], Decode(raw), Decode(raw[2..]);
    var o := Unescape(c);
    if o == "" {
      assert out == rest;
      VanishedLetter(c);
      d := DecodePrefix(raw[2..], b);
      d := EscapeDoubled(raw, d, Count(rest[..b]), Count(out[..b]));
    } else {
      assert o[0] == out[..b][0];
      EscapedLetter(c);
      if c == 'u' {
        InertLetters();
        assert out[1] == o[1] == 'u';
        InertBefore(out, b, 1);
        assert out[..b] == ['\\'] + "";
        d := 1;
        UnicodeDoubled(raw, out[..b]);
      } else {
        assert out[..b] == [o[0]] + rest[..b - 1];
        CountCons(o[0], rest[..b - 1]);
        d := DecodePrefix(raw[2..], b - 1);
        assert Inert('\\') && Inert('b') by { InertLetters(); }
        d := EscapeDoubled(raw, d, Count(rest[..b - 1]), Count(out[..b]));
      }
    }
  }

  lemma InertLetters()
    ensures Inert('\\') && Inert('b') && !Inert('u')
  {
  }

  lemma UnicodeDoubled(raw: string, out: string)
    requires |raw| >= 2 && raw[0] == '\\' && raw[1] == 'u' && out == ['\\'] + ""
    ensures Doubled(raw, 0, 1, Count(out))
  {
    assert raw[0..1] == ['\\'] + "";
    CountCons('\\', "");
  }

  /** An inert part of a decoded text comes from an inert part of the raw content with twice the backslashes. */
  lemma {:induction false} DecodeCluster(raw: string, a: nat, b: nat) returns (c: nat, d: nat)
    requires Raw(raw) && Quiet(raw) && a <= b <= |Decode(raw)| && AllInert(Decode(raw)[a..b])
    ensures Doubled(raw, c, d, Count(Decode(raw)[a..b]))
    decreases |raw|
  {
    hide Decode, Raw, Count, Quiet, Doubled, Unescape, Inert, AllInert;
    var out := Decode(raw);
    if a == 0 {
      assert out[0..b] == out[..b];
      c := 0;
      d := DecodePrefix(raw, b);
    } else {
      assert raw != "" by { DecodeEmpty(); }
      DecodeHead(raw);
      var w := if raw[0] != '\\' then 1 else 2;
      var o := if raw[0] != '\\' then [raw[0]] else Unescape(raw[1]);
      var rest := Decode(raw[w..]);
      assert out == o + rest;
      QuietTail(raw, w);
      if a >= |o| {
        assert out[a..b] == rest[a - |o|..b - |o|];
        c, d := DecodeCluster(raw[w..], a - |o|, b - |o|);
        c, d := LaterDoubled(raw, w, c, d, Count(out[a..b]));
      } else {
        UnescapeLong(raw[1]);
        if a < b {
          assert out[a] == 'u' && out[a..b][0] == 'u';
          assert false by { InertLetters(); InertAt(out[a..b], 0); }
        }
        c, d := 0, 0;
        EmptyDoubled(raw, out[a..b]);
      }
    }
  }

  lemma InertBefore(t: string, b: nat, i: nat)
    requires b <= |t| && i < |t| && AllInert(t[..b]) && !Inert(t[i])
    ensures b <= i
  {
    forall k | 0 <= k < b
      ensures Inert(t[k])
    {
      assert t[..b][k] == t[k];
    }
  }

  lemma EmptyDoubled(raw: string, out: string)
    requires out == ""
    ensures Doubled(raw, 0, 0, Count(out))
  {
  }

  lemma UnescapeLong(c: char)
    ensures |Unescape(c)| <= 2
    ensures |Unescape(c)| == 2 ==> Unescape(c)[1] == 'u'
  {
  }

  lemma LaterDoubled(raw: string, w: nat, c': nat, d': nat, n: nat) returns (c: nat, d: nat)
    requires w <= |raw| && Doubled(raw[w..], c', d', n)
    ensures Doubled(raw, c, d, n)
  {
    c, d := c' + w, d' + w;
    assert raw[c..d] == raw[w..][c'..d'];
  }

  // ------------------------------------------------------------------ encoding

  /** `y[a..b]` is inert and holds `n` backslashes, or one less if a letter that is no `u` follows the print. */
  predicate Kept(y: string, a: nat, b: nat, n: nat, e: string, h: nat) {
    && a <= b <= |y| && AllInert(y[a..b])
    && (Count(y[a..b]) >= n || (h < |e| && e[h] != 'u' && Count(y[a..b]) + 1 >= n))
  }

  lemma LetterOf(c: char)
    requires c != BACKSPACE
    ensures match Letter(c)
            case Some(d) => !Inert(d) && d != 'u' && d != '\\' && !Inert(c) && c != '\\'
            case None => !Control(c) && c != '"' && c != '/'
  {
  }

  lemma {:induction false} EncodePrefix(y: string, h: nat) returns (b: nat)
    requires BACKSPACE !in y && h <= |Encode(y)| && AllInert(Encode(y)[..h])
    ensures Kept(y, 0, b, Count(Encode(y)[..h]), Encode(y), h)
    decreases |y|
  {
    hide Encode, Count, Letter, Inert, AllInert, Kept;
    var e := Encode(y);
    if h == 0 {
      b := 0;
      NothingKept(y, e);
    } else {
      assert y != "" by { EncodeEmpty(); }
      assert e == EscapeChar(y[0]) + Encode(y[1..]) by { EncodeCons(y); }
      LetterOf(y[0]);
      var rest := Encode(y[1..]);
      if Letter(y[0]) == None {
        assert e[..h] == [y[0]] + rest[..h - 1];
        CountCons(y[0], rest[..h - 1]);
        b := EncodePrefix(y[1..], h - 1);
        b := PlainKept(y, b, rest, h - 1, e);
      } else {
        if h >= 2 {
          assert e[..h][1] == e[1] == Letter(y[0]).value;
          assert false by { InertAt(e[..h], 1); }
        }
        b := 0;
        EscapeKept(y, e);
      }
    }
  }

  lemma InertAt(t: string, i: nat)
    requires i < |t| && AllInert(t)
    ensures Inert(t[i])
  {
  }

  lemma EncodeEmpty()
    ensures Encode("") == ""
  {
  }

  lemma EncodeCons(y: string)
    requires y != ""
    ensures Encode(y) == EscapeChar(y[0]) + Encode(y[1..])
  {
  }

  lemma NothingKept(y: string, e: string)
    ensures Kept(y, 0, 0, Count(e[..0]), e, 0)
  {
  }

  lemma PlainKept(y: string, b': nat, rest: string, h': nat, e: string) returns (b: nat)
    requires y != "" && Inert(y[0]) && e == [y[0]] + rest && h' <= |rest| && Kept(y[1..], 0, b', Count(rest[..h']), rest, h')
    ensures Kept(y, 0, b, Count(e[..h' + 1]), e, h' + 1)
  {
    b := b' + 1;
    assert y[0..b] == [y[0]] + y[1..][0..b'];
    assert e[..h' + 1] == [y[0]] + rest[..h'];
    CountCons(y[0], y[1..][0..b']);
    CountCons(y[0], rest[..h']);
  }

  lemma EscapeKept(y: string, e: string)
    requires |e| >= 2 && e[0] == '\\' && e[1] != 'u'
    ensures Kept(y, 0, 0, Count(e[..1]), e, 1)
  {
    assert e[..1] == ['\\'] + "";
    CountCons('\\', "");
  }

  /** An inert part of a print comes from an inert part of the string with at most one backslash less. */
  lemma {:induction false} EncodeCluster(y: string, g: nat, h: nat) returns (a: nat, b: nat)
    requires BACKSPACE !in y && g <= h <= |Encode(y)| && AllInert(Encode(y)[g..h])
    ensures Kept(y, a, b, Count(Encode(y)[g..h]), Encode(y), h)
    decreases |y|
  {
    hide Encode, Count, Letter, Inert, AllInert, Kept;
    var e := Encode(y);
    if g == 0 {
      assert e[0..h] == e[..h];
      a := 0;
      b := EncodePrefix(y, h);
    } else {
      assert y != "" by { EncodeEmpty(); }
      EncodeCons(y);
      LetterOf(y[0]);
      var w := |EscapeChar(y[0])|;
      var rest := Encode(y[1..]);
      if g >= w {
        assert e[g..h] == rest[g - w..h - w];
        a, b := EncodeCluster(y[1..], g - w, h - w);
        a, b := LaterKept(y, a, b, Count(e[g..h]), rest, h - w, e, h);
      } else {
        if g < h {
          assert e[g..h][0] == e[1] == Letter(y[0]).value;
          assert false by { InertAt(e[g..h], 0); }
        }
        a, b := 0, 0;
        EmptyKept(y, e[g..h], e, h);
      }
    }
  }

  lemma EmptyKept(y: string, t: string, e: string, h: nat)
    requires t == ""
    ensures Kept(y, 0, 0, Count(t), e, h)
  {
  }

  lemma LaterKept(y: string, a': nat, b': nat, n: nat, rest: string, h': nat, e: string, h: nat) returns (a: nat, b: nat)
    requires y != "" && Kept(y[1..], a', b', n, rest, h')
    requires h' <= h && h - h' <= |e| && rest == e[h - h'..] 
    ensures Kept(y, a, b, n, e, h)
  {
    a, b := a' + 1, b' + 1;
    assert y[a..b] == y[1..][a'..b'];
  }

  /** Two backslashes in a print: the first is the string's own. */
  lemma {:induction false} EncodePair(y: string, k: nat) returns (j: nat)
    requires BACKSPACE !in y && k + 1 < |Encode(y)| && Encode(y)[k] == '\\' && Encode(y)[k + 1] == '\\'
    ensures j + 1 < |y| && y[j] == '\\'
    ensures y[j + 1] != '\\' ==> Letter(y[j + 1]).Some? && k + 2 < |Encode(y)| && Encode(y)[k + 2] == Letter(y[j + 1]).value
    decreases |y|
  {
    hide Encode, Letter, Inert;
    assert y != "" by { EncodeEmpty(); }
    EncodeCons(y);
    LetterOf(y[0]);
    var e, rest := Encode(y), Encode(y[1..]);
    var w := |EscapeChar(y[0])|;
    if k >= w {
      j := EncodePair(y[1..], k - w);
      j := j + 1;
    } else if Letter(y[0]) == None {
      j := 0;
      assert y[1..] != "" by { EncodeEmpty(); }
      EncodeCons(y[1..]);
      LetterOf(y[1]);
      assert rest[0] == '\\';
    } else {
      assert false;
    }
  }

  /** A print holds no control character. */
  lemma {:induction false} EncodeQuiet(y: string)
    ensures forall c | c in Encode(y) :: !Control(c)
  {
    if y != "" {
      EncodeQuiet(y[1..]);
      EscapeQuiet(y[0]);
    }
  }

  lemma EscapeQuiet(c: char)
    ensures forall d | d in EscapeChar(c) :: !Control(d)
  {
  }
}
