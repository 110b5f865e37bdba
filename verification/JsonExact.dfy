/** The strings that can be read from the print they belong to: in a text whose quotes all stem from the prints of some
    strings, and from which all of these are read, each is spelled so that it is read back from its own print. */
module JsonExact {
  import opened Texts
  import opened JsonStrings
  import opened JsonGrammar
  import opened JsonBackslashes

  // ----------------------------------------- strings that are read from their own print

  /** The position `k` of `s` lies in the print of one of the strings. */
  ghost predicate InPrint(s: string, strings: set<string>, k: nat) {
    exists y, p: nat :: y in strings && PrintAround(s, y, p, k)
  }

  ghost predicate PrintAround(s: string, y: string, p: nat, k: nat) {
    At(s, p, Quote(Encode(y))) && p < k < p + 1 + |Encode(y)|
  }

  /** The string is decoded from a quoted piece of `s`. */
  ghost predicate ReadFrom(s: string, x: string) {
    exists raw, p: nat :: QuotedPiece(s, x, raw, p)
  }

  ghost predicate QuotedPiece(s: string, x: string, raw: string, p: nat) {
    At(s, p, Quote(raw)) && Raw(raw) && Decode(raw) == x
  }

  /** All strings are read from quoted pieces, and all backslashes and backspaces lie in prints. */
  ghost predicate SelfPrinted(s: string, strings: set<string>) {
    && (forall x | x in strings :: ReadFrom(s, x))
    && (forall k | 0 <= k < |s| && (s[k] == '\\' || s[k] == BACKSPACE) :: s[k] == '\\' && InPrint(s, strings, k))
  }

  /** The characters of a quoted piece, and the quotes around it. */
  lemma PieceChars(s: string, p: nat, raw: string)
    requires At(s, p, Quote(raw))
    ensures p + |raw| + 1 < |s| && s[p] == '"' && s[p + 1 + |raw|] == '"'
    ensures forall i | 0 <= i < |raw| :: raw[i] == s[p + 1 + i]
    ensures s[p + 1..p + 1 + |raw|] == raw
  {
    AtQuoted(s, p, raw);
    AtSlice(s, p + 1, raw);
  }

  lemma {:induction false} DecodeKeepsOff(raw: string, c: char)
    requires Raw(raw) && c !in raw && c == BACKSPACE
    ensures c !in Decode(raw)
    decreases |raw|
  {
    if raw != "" {
      DecodeHead(raw);
      assert raw[0] in raw;
      if raw[0] != '\\' {
        assert forall d | d in raw[1..] :: d in raw;
        DecodeKeepsOff(raw[1..], c);
      } else {
        assert forall d | d in raw[2..] :: d in raw;
        DecodeKeepsOff(raw[2..], c);
        assert BACKSPACE !in Unescape(raw[1]) by { assert raw[1] in raw; }
      }
    }
  }

  /** No string has a backspace. */
  lemma NoBackspace(s: string, strings: set<string>, x: string)
    requires SelfPrinted(s, strings) && x in strings
    ensures BACKSPACE !in x
  {
    hide Decode, Raw, Quote, At, InPrint;
    var raw, p: nat :| QuotedPiece(s, x, raw, p);
    PieceChars(s, p, raw);
    assert forall i | 0 <= i < |raw| :: raw[i] == s[p + 1 + i] != BACKSPACE;
    DecodeKeepsOff(raw, BACKSPACE);
  }

  /** A backslash is never followed by a control character. */
  lemma BackslashQuiet(s: string, strings: set<string>, k: nat)
    requires SelfPrinted(s, strings) && k < |s| && s[k] == '\\'
    ensures k + 1 < |s| && !Control(s[k + 1])
  {
    hide Encode, Quote, At, ReadFrom;
    assert InPrint(s, strings, k);
    var y, p: nat :| y in strings && PrintAround(s, y, p, k);
    PieceChars(s, p, Encode(y));
    EncodeQuiet(y);
    var i := k + 1 - (p + 1);
    if i < |Encode(y)| {
      assert Encode(y)[i] == s[k + 1] && Encode(y)[i] in Encode(y);
    }
  }

  lemma PieceQuiet(s: string, strings: set<string>, p: nat, raw: string)
    requires SelfPrinted(s, strings) && At(s, p, Quote(raw))
    ensures Quiet(raw)
  {
    hide SelfPrinted, Quote, At, Control;
    PieceChars(s, p, raw);
    forall i | 0 <= i < |raw| - 1
      ensures QuietAt(raw, i)
    {
      if raw[i] == '\\' {
        BackslashQuiet(s, strings, p + 1 + i);
      }
    }
  }

  /** An inert part of the string with at least `n` backslashes. */
  ghost predicate HasCluster(x: string, n: nat) {
    exists a: nat, b: nat :: a <= b <= |x| && AllInert(x[a..b]) && Count(x[a..b]) >= n
  }

  /** An inert stretch of `s` with a backslash lies inside the print of a single string. */
  lemma StretchInPrint(s: string, strings: set<string>, g: nat, h: nat) returns (y: string, q: nat)
    requires SelfPrinted(s, strings) && g <= h <= |s| && AllInert(s[g..h]) && Count(s[g..h]) > 0
    ensures y in strings && At(s, q, Quote(Encode(y))) && q + 1 <= g && h <= q + 1 + |Encode(y)|
  {
    hide Encode, Quote, At, ReadFrom, Count;
    var k := CountSome(s[g..h]);
    assert s[g + k] == '\\';
    assert InPrint(s, strings, g + k);
    var z, p: nat :| z in strings && PrintAround(s, z, p, g + k);
    y, q := z, p;
    PieceChars(s, q, Encode(y));
    forall i | g <= i < h
      ensures s[i] != '"'
    {
      assert s[i] == s[g..h][i - g];
    }
  }

  /** From a string with `n >= 2` backslashes in an inert part there is one with more. */
  lemma ClusterGrows(s: string, strings: set<string>, x: string, n: nat) returns (y: string)
    requires SelfPrinted(s, strings) && x in strings && n >= 2 && HasCluster(x, n)
    ensures y in strings && HasCluster(y, n + 1)
  {
    hide SelfPrinted, Encode, Decode, Raw, Quote, At, Count, AllInert;
    assert ReadFrom(s, x) by { SelfPrintedReads(s, strings, x); }
    var raw, p: nat :| QuotedPiece(s, x, raw, p);
    PieceQuiet(s, strings, p, raw);
    PieceChars(s, p, raw);
    var a: nat, b: nat :| a <= b <= |x| && AllInert(x[a..b]) && Count(x[a..b]) >= n;
    var c, d := DecodeCluster(raw, a, b);
    var g, h := p + 1 + c, p + 1 + d;
    assert s[g..h] == raw[c..d];
    var q;
    y, q := StretchInPrint(s, strings, g, h);
    var e := Encode(y);
    PieceChars(s, q, e);
    assert e[g - q - 1..h - q - 1] == s[g..h];
    NoBackspace(s, strings, y);
    var a', b' := EncodeCluster(y, g - q - 1, h - q - 1);
    if d < |raw| && raw[d] == 'u' {
      assert s[h] == 'u';
      assert h - q - 1 < |e| ==> e[h - q - 1] == s[h];
    }
    assert Count(y[a'..b']) >= n + 1;
  }

  lemma SelfPrintedReads(s: string, strings: set<string>, x: string)
    requires SelfPrinted(s, strings) && x in strings
    ensures ReadFrom(s, x)
  {
  }

  /** So no string has two: there is no end to the growth. */
  lemma {:induction false} NoCluster(s: string, strings: set<string>, x: string, n: nat)
    requires SelfPrinted(s, strings) && x in strings && n >= 2
    ensures !HasCluster(x, n)
    decreases |s| + 1 - n
  {
    hide SelfPrinted;
    if HasCluster(x, n) {
      ClusterFits(s, strings, x, n);
      var y := ClusterGrows(s, strings, x, n);
      NoCluster(s, strings, y, n + 1);
    }
  }

  lemma ClusterFits(s: string, strings: set<string>, x: string, n: nat)
    requires SelfPrinted(s, strings) && x in strings && HasCluster(x, n)
    ensures n <= |s|
  {
    hide Decode, Raw, Quote, At, InPrint, Count, AllInert;
    var raw, p: nat :| QuotedPiece(s, x, raw, p);
    PieceChars(s, p, raw);
    DecodeShorter(raw);
    var a: nat, b: nat :| a <= b <= |x| && AllInert(x[a..b]) && Count(x[a..b]) >= n;
    CountBound(x[a..b]);
  }

  lemma {:induction false} DecodeShorter(raw: string)
    requires Raw(raw)
    ensures |Decode(raw)| <= |raw|
    decreases |raw|
  {
    if raw != "" {
      DecodeHead(raw);
      if raw[0] != '\\' {
        DecodeShorter(raw[1..]);
      } else {
        UnescapeLong(raw[1]);
        DecodeShorter(raw[2..]);
      }
    }
  }

  // --------------------------------------------------- what follows a backslash

  /** What stands behind the backslash `x[i]`: a given letter, or the end if the letter is a quote. */
  predicate FollowedBy(x: string, i: nat, letter: char) {
    if letter == '"' then i + 1 == |x| else i + 1 < |x| && x[i + 1] == letter
  }

  /** Where a decoded backslash comes from. */
  lemma {:induction false} DecodedBackslash(raw: string, i: nat) returns (c: nat)
    requires Raw(raw) && i < |Decode(raw)| && Decode(raw)[i] == '\\'
    ensures c + 1 < |raw| && raw[c] == '\\'
    ensures raw[c + 1] == 'u' || raw[c + 1] == '\\'
    ensures raw[c + 1] == 'u' ==> FollowedBy(Decode(raw), i, 'u')
    ensures raw[c + 1] == '\\' && c + 2 == |raw| ==> i + 1 == |Decode(raw)|
    ensures raw[c + 1] == '\\' && c + 2 < |raw| ==>
              raw[c + 2] != '"' && (raw[c + 2] != '\\' ==> FollowedBy(Decode(raw), i, raw[c + 2]))
    decreases |raw|
  {
    hide Decode, Raw, Unescape;
    assert raw != "" by { DecodeEmpty(); }
    DecodeHead(raw);
    var w := if raw[0] != '\\' then 1 else 2;
    var o := if raw[0] != '\\' then [raw[0]] else Unescape(raw[1]);
    var rest := Decode(raw[w..]);
    assert Decode(raw) == o + rest;
    if i >= |o| {
      c := DecodedBackslash(raw[w..], i - |o|);
      c := c + w;
    } else {
      c := 0;
      UnescapeBackslash(raw[1], i);
      if raw[1] == '\\' {
        if |raw| == 2 {
          DecodeEmpty();
        } else {
          RawHead(raw[2..]);
          DecodeHead(raw[2..]);
        }
      }
    }
  }

  lemma RawHead(t: string)
    requires Raw(t) && t != ""
    ensures t[0] != '"'
  {
  }

  lemma UnescapeBackslash(c: char, i: nat)
    requires i < |Unescape(c)| && Unescape(c)[i] == '\\'
    ensures i == 0 && (c == 'u' || c == '\\') && Unescape(c) == if c == 'u' then ['\\', 'u'] else ['\\']
  {
  }

  /** A backslash of a string is followed by a `u`, or by the letter of a character that stands behind a backslash. */
  lemma Follower(s: string, strings: set<string>, x: string, i: nat) returns (y: string, j: nat)
    requires SelfPrinted(s, strings) && x in strings && i < |x| && x[i] == '\\'
    ensures FollowedBy(x, i, 'u') ||
            (y in strings && j + 1 < |y| && y[j] == '\\' && Letter(y[j + 1]).Some? && FollowedBy(x, i, Letter(y[j + 1]).value))
  {
    hide SelfPrinted, Encode, Decode, Raw, Quote, At, Letter, Count, HasCluster;
    SelfPrintedReads(s, strings, x);
    var raw, p: nat :| QuotedPiece(s, x, raw, p);
    PieceChars(s, p, raw);
    var c := DecodedBackslash(raw, i);
    y, j := x, i;
    if raw[c + 1] == '\\' {
      var k := p + 1 + c;
      assert s[k] == '\\' && s[k + 1] == '\\';
      var q;
      y, q := PairInPrint(s, strings, k);
      PieceChars(s, q, Encode(y));
      NoBackspace(s, strings, y);
      j := EncodePair(y, k - q - 1);
      if y[j + 1] == '\\' {
        PairIsCluster(y, j);
        NoCluster(s, strings, y, 2);
      }
      assert s[k + 2] == Letter(y[j + 1]).value;
      LetterPlain(y[j + 1]);
    }
  }

  lemma LetterPlain(c: char)
    ensures Letter(c).Some? ==> Letter(c).value != '\\'
  {
  }

  lemma PairInPrint(s: string, strings: set<string>, k: nat) returns (y: string, q: nat)
    requires SelfPrinted(s, strings) && k + 1 < |s| && s[k] == '\\' && s[k + 1] == '\\'
    ensures y in strings && At(s, q, Quote(Encode(y))) && q + 1 <= k && k + 1 < q + 1 + |Encode(y)|
  {
    hide Encode, Quote, At, ReadFrom;
    assert InPrint(s, strings, k);
    var z, p: nat :| z in strings && PrintAround(s, z, p, k);
    y, q := z, p;
    PieceChars(s, q, Encode(y));
  }

  lemma PairIsCluster(y: string, j: nat)
    requires j + 1 < |y| && y[j] == '\\' && y[j + 1] == '\\'
    ensures HasCluster(y, 2)
  {
    assert y[j..j + 2] == ['\\'] + (['\\'] + "");
    CountCons('\\', "");
    CountCons('\\', ['\\'] + "");
    assert AllInert(y[j..j + 2]) && Count(y[j..j + 2]) >= 2;
  }

  /** Hence the strings are spelled so that each is read back from its own print. */
  lemma SelfPrintedSpelled(s: string, strings: set<string>, x: string)
    requires SelfPrinted(s, strings) && x in strings
    ensures Spelled(x, {'u', '/'})
  {
    hide SelfPrinted;
    NoBackspace(s, strings, x);
    forall i | 0 <= i < |x|
      ensures SpelledAt(x, {'u', '/'}, i)
    {
      assert x[i] in x;
      if x[i] == '\\' {
        var y, j := Follower(s, strings, x, i);
        if !FollowedBy(x, i, 'u') {
          var z, l := Follower(s, strings, y, j);
        }
      }
    }
  }
}
