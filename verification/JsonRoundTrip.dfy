/** The round trip, exactly: printing and reading gives the same tree back if and only if the tree is faithful. */
module JsonRoundTrip {
  import opened Texts
  import opened JsonStrings
  import opened JsonNumbers
  import opened JsonReader
  import opened JsonGrammar
  import opened JsonLanguage
  import opened JsonPrinter
  import opened JsonBackslashes
  import opened JsonExact

  // ------------------------------------------------- what a tree is made of

  /** Bounds on the strings, the keys and the numbers of a tree. */
  datatype Bounds = Bounds(strings: iset<string>, keys: iset<string>, numbers: iset<real>)

  ghost predicate Within(v: Value, w: Bounds) {
    match v
    case Obj(m) => forall k | k in m :: k in w.keys && Within(m[k], w)
    case Arr(items) => forall i | 0 <= i < |items| :: Within(items[i], w)
    case Str(t) => t in w.strings
    case Num(x) => x in w.numbers
    case _ => true
  }

  ghost predicate MapWithin(m: map<string, Value>, w: Bounds) {
    forall k | k in m :: k in w.keys && Within(m[k], w)
  }

  ghost predicate SeqWithin(items: seq<Value>, w: Bounds) {
    forall i | 0 <= i < |items| :: Within(items[i], w)
  }

  lemma MapWithinStore(m: map<string, Value>, k: string, v: Value, w: Bounds)
    ensures MapWithin(m, w) && k in w.keys && Within(v, w) ==> MapWithin(m[k := v], w)
    ensures k !in m && MapWithin(m[k := v], w) ==> MapWithin(m, w) && k in w.keys && Within(v, w)
  {
    hide Within;
    var n := m[k := v];
    if k !in m && MapWithin(n, w) {
      assert n[k] == v;
      assert forall l | l in m :: l in n && n[l] == m[l];
    }
  }

  lemma SeqWithinStore(items: seq<Value>, v: Value, w: Bounds)
    ensures SeqWithin(items + [v], w) <==> SeqWithin(items, w) && Within(v, w)
  {
    hide Within;
    var n := items + [v];
    assert n[|items|] == v;
    assert forall i | 0 <= i < |items| :: n[i] == items[i];
  }

  /** An ordered tree within bounds. */
  ghost predicate OrderedWithin(o: Ordered, w: Bounds) {
    match o
    case OObj(ms) => MembersWithin(ms, w)
    case OArr(es) => ItemsWithin(es, w)
    case OStr(t) => t in w.strings
    case ONum(x) => x in w.numbers
    case _ => true
  }

  ghost predicate MembersWithin(ms: Members, w: Bounds) {
    match ms case NoMember => true case AMember(k, v, rest) => k in w.keys && OrderedWithin(v, w) && MembersWithin(rest, w)
  }

  ghost predicate ItemsWithin(es: Items, w: Bounds) {
    match es case NoItem => true case AnItem(v, rest) => OrderedWithin(v, w) && ItemsWithin(rest, w)
  }

  lemma {:induction false} TreeWithin(o: Ordered, w: Bounds)
    requires Distinct(o)
    ensures Within(Tree(o), w) <==> OrderedWithin(o, w)
    decreases o
  {
    match o
    case OObj(ms) =>
      var empty: map<string, Value> := map[];
      assert empty.Keys == {};
      MembersTreeWithin(ms, {}, empty, w);
      assert MapWithin(empty, w);
      assert Within(Tree(o), w) <==> MapWithin(MembersInto(ms, empty), w);
    case OArr(es) =>
      ItemsTreeWithin(es, [], w);
      assert SeqWithin([], w);
      assert Within(Tree(o), w) <==> SeqWithin(ItemsInto(es, []), w);
    case _ =>
  }

  lemma {:induction false} MembersTreeWithin(ms: Members, keys: set<string>, m: map<string, Value>, w: Bounds)
    requires MembersDistinct(ms, keys) && m.Keys == keys
    ensures MapWithin(MembersInto(ms, m), w) <==> MapWithin(m, w) && MembersWithin(ms, w)
    decreases ms
  {
    hide Within, MapWithin, Tree, OrderedWithin, Distinct;
    match ms
    case NoMember =>
    case AMember(k, v, rest) =>
      TreeWithin(v, w);
      MapWithinStore(m, k, Tree(v), w);
      MembersTreeWithin(rest, keys + {k}, m[k := Tree(v)], w);
  }

  lemma {:induction false} ItemsTreeWithin(es: Items, items: seq<Value>, w: Bounds)
    requires ItemsDistinct(es)
    ensures SeqWithin(ItemsInto(es, items), w) <==> SeqWithin(items, w) && ItemsWithin(es, w)
    decreases es
  {
    hide Within, SeqWithin, Tree, OrderedWithin, Distinct;
    match es
    case NoItem =>
    case AnItem(v, rest) =>
      TreeWithin(v, w);
      SeqWithinStore(items, Tree(v), w);
      ItemsTreeWithin(rest, items + [Tree(v)], w);
  }

  lemma {:induction false} OrderedWithinSets(o: Ordered, w: Bounds)
    requires OrderedWithin(o, w)
    ensures forall x | x in Strings(o) :: x in w.strings || x in w.keys
    ensures forall x | x in Keys(o) :: x in w.keys
    ensures forall x | x in Numbers(o) :: x in w.numbers
    decreases o
  {
    match o
    case OObj(ms) =>
      MembersWithinSets(ms, w);
      assert Strings(o) == MemberStrings(ms) && Keys(o) == MemberKeys(ms) && Numbers(o) == MemberNumbers(ms);
    case OArr(es) =>
      ItemsWithinSets(es, w);
      assert Strings(o) == ItemStrings(es) && Keys(o) == ItemKeys(es) && Numbers(o) == ItemNumbers(es);
    case _ =>
  }

  lemma {:induction false} MembersWithinSets(ms: Members, w: Bounds)
    requires MembersWithin(ms, w)
    ensures forall x | x in MemberStrings(ms) :: x in w.strings || x in w.keys
    ensures forall x | x in MemberKeys(ms) :: x in w.keys
    ensures forall x | x in MemberNumbers(ms) :: x in w.numbers
    decreases ms
  {
    match ms
    case NoMember =>
    case AMember(k, v, rest) =>
      OrderedWithinSets(v, w);
      MembersWithinSets(rest, w);
      assert MemberStrings(ms) == {k} + Strings(v) + MemberStrings(rest);
      assert MemberKeys(ms) == {k} + Keys(v) + MemberKeys(rest);
      assert MemberNumbers(ms) == Numbers(v) + MemberNumbers(rest);
  }

  lemma {:induction false} ItemsWithinSets(es: Items, w: Bounds)
    requires ItemsWithin(es, w)
    ensures forall x | x in ItemStrings(es) :: x in w.strings || x in w.keys
    ensures forall x | x in ItemKeys(es) :: x in w.keys
    ensures forall x | x in ItemNumbers(es) :: x in w.numbers
    decreases es
  {
    match es
    case NoItem =>
    case AnItem(v, rest) =>
      OrderedWithinSets(v, w);
      ItemsWithinSets(rest, w);
      assert ItemStrings(es) == Strings(v) + ItemStrings(rest);
      assert ItemKeys(es) == Keys(v) + ItemKeys(rest);
      assert ItemNumbers(es) == Numbers(v) + ItemNumbers(rest);
  }

  // ------------------------------------------------------- what is read from a text

  /** Strings come from quoted pieces, keys are not empty, numbers are not negative. */
  ghost function ReadBounds(s: string): Bounds {
    Bounds(iset x: string | ReadFrom(s, x), iset x: string | ReadFrom(s, x) && x != "", iset x: real | NonNegative(x))
  }

  predicate NonNegative(x: real) {
    x >= 0.0
  }

  lemma DigitsNonNegative(digits: string)
    requires |digits| > 0 && Digit(digits[0])
    ensures Stod(digits).Some? && Stod(digits).value >= 0.0
  {
    DigitConverts(digits);
    assert SignEnd(digits, 0) == 0;
  }

  lemma {:induction false} DerivedWithin(s: string, i: nat, v: Cst)
    requires Derives(v) && At(s, i, Text(v))
    ensures Within(Denote(v), ReadBounds(s))
    decreases v
  {
    var w := ReadBounds(s);
    match v
    case CObject(b) =>
      var empty: map<string, Value> := map[];
      assert empty.Keys == {} && MapWithin(empty, w);
      AtCons(s, i, '{', BodyText(b));
      BodyWithin(s, i + 1, b, false, true, empty);
      assert MapWithin(BodyInto(b, empty), w);
    case CArray(e) =>
      AtCons(s, i, '[', ElemsText(e));
      assert SeqWithin([], w);
      ElemsAreWithin(s, i + 1, e, true, []);
      assert SeqWithin(ElemsInto(e, []), w);
    case CString(raw) =>
      assert QuotedPiece(s, Decode(raw), raw, i);
    case CNumber(digits) =>
      DigitsNonNegative(digits);
    case _ =>
  }

  lemma {:induction false} BodyWithin(s: string, i: nat, b: Body, colon: bool, first: bool, m: map<string, Value>)
    requires BodyDerives(b, colon, first, m.Keys) && At(s, i, BodyText(b)) && MapWithin(m, ReadBounds(s))
    ensures MapWithin(BodyInto(b, m), ReadBounds(s))
    decreases b
  {
    hide Within, MapWithin, ReadBounds, Denote, Text, At, Decode, Raw, Derives, Gap, Separator;
    match b
    case BodyEnd(_) =>
    case BodyNext(gap, Alone(raw), rest) =>
      AtSplit(s, i, gap, EntryText(b.entry) + BodyText(rest));
      AtSplit(s, i + |gap|, EntryText(b.entry), BodyText(rest));
      BodyWithin(s, i + |gap| + |EntryText(b.entry)|, rest, colon, false, m);
    case BodyNext(gap, Member(raw, sep, v), rest) =>
      AtSplit(s, i, gap, EntryText(b.entry) + BodyText(rest));
      AtSplit(s, i + |gap|, EntryText(b.entry), BodyText(rest));
      var p := i + |gap|;
      AtSplit(s, p, Quote(raw), sep + Text(v));
      AtSplit(s, p + |Quote(raw)|, sep, Text(v));
      DerivedWithin(s, p + |Quote(raw)| + |sep|, v);
      KeyWithin(s, p, raw);
      var more := m[Decode(raw) := Denote(v)];
      MapWithinStore(m, Decode(raw), Denote(v), ReadBounds(s));
      assert more.Keys == m.Keys + {Decode(raw)};
      BodyWithin(s, p + |EntryText(b.entry)|, rest, !v.CString? && (colon || ':' in sep), false, more);
  }

  lemma KeyWithin(s: string, p: nat, raw: string)
    requires At(s, p, Quote(raw)) && Raw(raw) && Decode(raw) != ""
    ensures Decode(raw) in ReadBounds(s).keys
  {
    assert QuotedPiece(s, Decode(raw), raw, p);
  }

  lemma {:induction false} ElemsAreWithin(s: string, i: nat, e: Elems, first: bool, items: seq<Value>)
    requires ElemsDerives(e, first) && At(s, i, ElemsText(e)) && SeqWithin(items, ReadBounds(s))
    ensures SeqWithin(ElemsInto(e, items), ReadBounds(s))
    decreases e
  {
    hide Within, SeqWithin, ReadBounds, Denote, Text, At, Derives, Gap;
    match e
    case ElemsEnd(_) =>
    case ElemsNext(gap, v, rest) =>
      AtSplit(s, i, gap, Text(v) + ElemsText(rest));
      AtSplit(s, i + |gap|, Text(v), ElemsText(rest));
      DerivedWithin(s, i + |gap|, v);
      SeqWithinStore(items, Denote(v), ReadBounds(s));
      ElemsAreWithin(s, i + |gap| + |Text(v)|, rest, false, items + [Denote(v)]);
  }

  // ------------------------------------------------------ where the backslashes are

  /** Gaps and literals hold no backslash and no backspace; raw contents are prints of the given strings. */
  ghost predicate Clean(v: Cst, strings: set<string>) {
    match v
    case CObject(b) => BodyClean(b, strings)
    case CArray(e) => ElemsClean(e, strings)
    case CString(raw) => PrintOf(raw, strings)
    case CNumber(digits) => AllNumeric(digits)
    case CTrue => true
    case CFalse(junk) => Plain(junk)
    case CNull(junk) => Plain(junk)
  }

  ghost predicate BodyClean(b: Body, strings: set<string>) {
    match b
    case BodyEnd(gap) => Gap(gap)
    case BodyNext(gap, Alone(_), rest) => false
    case BodyNext(gap, Member(raw, sep, v), rest) =>
      Gap(gap) && PrintOf(raw, strings) && Separator(sep) && Clean(v, strings) && BodyClean(rest, strings)
  }

  ghost predicate ElemsClean(e: Elems, strings: set<string>) {
    match e
    case ElemsEnd(gap) => Gap(gap)
    case ElemsNext(gap, v, rest) => Gap(gap) && Clean(v, strings) && ElemsClean(rest, strings)
  }

  ghost predicate PrintOf(raw: string, strings: set<string>) {
    exists y :: y in strings && raw == Encode(y)
  }

  predicate Plain(t: string) {
    forall c | c in t :: c != '\\' && c != BACKSPACE
  }

  /** From `i` on, `n` characters of `s` have their backslashes in prints. */
  ghost predicate Accounted(s: string, strings: set<string>, i: nat, n: nat) {
    forall k | i <= k < i + n && k < |s| && (s[k] == '\\' || s[k] == BACKSPACE) :: s[k] == '\\' && InPrint(s, strings, k)
  }

  lemma PlainAccounted(s: string, strings: set<string>, i: nat, t: string)
    requires At(s, i, t) && Plain(t)
    ensures Accounted(s, strings, i, |t|)
  {
    AtSlice(s, i, t);
    assert forall k | i <= k < i + |t| :: s[k] == t[k - i] && t[k - i] in t;
  }

  lemma QuoteAccounted(s: string, strings: set<string>, i: nat, raw: string)
    requires At(s, i, Quote(raw)) && PrintOf(raw, strings)
    ensures Accounted(s, strings, i, |raw| + 2)
  {
    hide Encode, Quote, At;
    var y :| y in strings && raw == Encode(y);
    PieceChars(s, i, raw);
    EncodeQuiet(y);
    forall k | i <= k < i + |raw| + 2 && k < |s| && (s[k] == '\\' || s[k] == BACKSPACE)
      ensures s[k] == '\\' && InPrint(s, strings, k)
    {
      assert i < k < i + 1 + |raw|;
      assert s[k] == raw[k - i - 1] && raw[k - i - 1] in raw;
      assert PrintAround(s, y, i, k);
    }
  }

  lemma GapPlain(t: string)
    ensures Gap(t) || Separator(t) ==> Plain(t)
    ensures AllNumeric(t) ==> Plain(t)
  {
    assert forall c | c in t :: exists i :: 0 <= i < |t| && t[i] == c;
  }

  lemma {:induction false} CleanAccounted(s: string, strings: set<string>, i: nat, v: Cst)
    requires Clean(v, strings) && At(s, i, Text(v))
    ensures Accounted(s, strings, i, |Text(v)|)
    decreases v, 0
  {
    hide InPrint, Plain, Accounted;
    match v
    case CObject(b) =>
      AtCons(s, i, '{', BodyText(b));
      BodyAccounted(s, strings, i + 1, b);
      OneAccounted(s, strings, i, |BodyText(b)|);
    case CArray(e) =>
      AtCons(s, i, '[', ElemsText(e));
      ElemsAccounted(s, strings, i + 1, e);
      OneAccounted(s, strings, i, |ElemsText(e)|);
    case CString(raw) =>
      QuoteAccounted(s, strings, i, raw);
    case CNumber(digits) =>
      GapPlain(digits);
      PlainAccounted(s, strings, i, digits);
    case CTrue =>
      LiteralsPlain();
      PlainAccounted(s, strings, i, "true");
    case CFalse(junk) =>
      AtCons(s, i, 'f', junk);
      PlainAccounted(s, strings, i + 1, junk);
      OneAccounted(s, strings, i, |junk|);
    case CNull(junk) =>
      AtCons(s, i, 'n', junk);
      PlainAccounted(s, strings, i + 1, junk);
      OneAccounted(s, strings, i, |junk|);
  }

  lemma LiteralsPlain()
    ensures Plain("true") && Plain("alse") && Plain("ull")
  {
  }

  lemma OneAccounted(s: string, strings: set<string>, i: nat, n: nat)
    requires i < |s| && s[i] != '\\' && s[i] != BACKSPACE && Accounted(s, strings, i + 1, n)
    ensures Accounted(s, strings, i, n + 1)
  {
  }

  lemma JoinAccounted(s: string, strings: set<string>, i: nat, n: nat, m: nat)
    requires Accounted(s, strings, i, n) && Accounted(s, strings, i + n, m)
    ensures Accounted(s, strings, i, n + m)
  {
  }

  lemma {:induction false} BodyAccounted(s: string, strings: set<string>, i: nat, b: Body)
    requires BodyClean(b, strings) && At(s, i, BodyText(b))
    ensures Accounted(s, strings, i, |BodyText(b)|)
    decreases b
  {
    hide InPrint, Plain, Accounted, At, Text, Clean, PrintOf, Gap, Separator;
    match b
    case BodyEnd(gap) =>
      AtSplit(s, i, gap, ['}']);
      GapPlain(gap);
      PlainAccounted(s, strings, i, gap);
      AtChar(s, i + |gap|, '}');
      NoneAccounted(s, strings, i + |gap| + 1);
      OneAccounted(s, strings, i + |gap|, 0);
      JoinAccounted(s, strings, i, |gap|, 1);
    case BodyNext(gap, Alone(_), rest) =>
    case BodyNext(gap, Member(raw, sep, v), rest) =>
      var t := EntryText(b.entry);
      AtSplit(s, i, gap, t + BodyText(rest));
      AtSplit(s, i + |gap|, t, BodyText(rest));
      GapPlain(gap);
      PlainAccounted(s, strings, i, gap);
      CleanAccountedMember(s, strings, i + |gap|, raw, sep, v);
      BodyAccounted(s, strings, i + |gap| + |t|, rest);
      JoinAccounted(s, strings, i + |gap|, |t|, |BodyText(rest)|);
      JoinAccounted(s, strings, i, |gap|, |t| + |BodyText(rest)|);
  }

  lemma NoneAccounted(s: string, strings: set<string>, i: nat)
    ensures Accounted(s, strings, i, 0)
  {
  }

  lemma {:induction false} CleanAccountedMember(s: string, strings: set<string>, i: nat, raw: string, sep: string, v: Cst)
    requires PrintOf(raw, strings) && Separator(sep) && Clean(v, strings) && At(s, i, EntryText(Member(raw, sep, v)))
    ensures Accounted(s, strings, i, |EntryText(Member(raw, sep, v))|)
    decreases v, 1
  {
    hide InPrint, Plain, Accounted, At, Text, Clean, PrintOf, Gap, Separator;
    AtSplit(s, i, Quote(raw), sep + Text(v));
    AtSplit(s, i + |Quote(raw)|, sep, Text(v));
    QuoteAccounted(s, strings, i, raw);
    var j := i + |raw| + 2;
    GapPlain(sep);
    PlainAccounted(s, strings, j, sep);
    CleanAccounted(s, strings, j + |sep|, v);
    JoinAccounted(s, strings, j, |sep|, |Text(v)|);
    JoinAccounted(s, strings, i, |raw| + 2, |sep| + |Text(v)|);
  }

  lemma {:induction false} ElemsAccounted(s: string, strings: set<string>, i: nat, e: Elems)
    requires ElemsClean(e, strings) && At(s, i, ElemsText(e))
    ensures Accounted(s, strings, i, |ElemsText(e)|)
    decreases e
  {
    hide InPrint, Plain, Accounted, At, Text, Clean, PrintOf, Gap, Separator;
    match e
    case ElemsEnd(gap) =>
      AtSplit(s, i, gap, [']']);
      GapPlain(gap);
      PlainAccounted(s, strings, i, gap);
      AtChar(s, i + |gap|, ']');
      NoneAccounted(s, strings, i + |gap| + 1);
      OneAccounted(s, strings, i + |gap|, 0);
      JoinAccounted(s, strings, i, |gap|, 1);
    case ElemsNext(gap, v, rest) =>
      AtSplit(s, i, gap, Text(v) + ElemsText(rest));
      AtSplit(s, i + |gap|, Text(v), ElemsText(rest));
      GapPlain(gap);
      PlainAccounted(s, strings, i, gap);
      CleanAccounted(s, strings, i + |gap|, v);
      ElemsAccounted(s, strings, i + |gap| + |Text(v)|, rest);
      JoinAccounted(s, strings, i + |gap|, |Text(v)|, |ElemsText(rest)|);
      JoinAccounted(s, strings, i, |gap|, |Text(v)| + |ElemsText(rest)|);
  }

  // --------------------------------------------------------- the print is clean

  lemma {:induction false} PrintClean(o: Ordered, compact: bool, indent: int, strings: set<string>)
    requires Strings(o) <= strings
    ensures Clean(CstOf(o, compact, indent), strings)
    decreases o
  {
    hide PrintOf, Plain, NewLine, AllNumeric, PrintNumber;
    LayoutBasics(compact);
    LiteralsPlain();
    match o
    case OObj(ms) => MembersClean(ms, compact, indent, NewLine(compact), strings);
    case OArr(es) => ItemsClean(es, compact, indent, NewLine(compact), strings);
    case OStr(t) => PrintOfString(t, strings);
    case ONum(x) => PrintNumberNumeric(x);
    case _ =>
  }

  lemma PrintOfString(t: string, strings: set<string>)
    requires t in strings
    ensures PrintOf(Encode(t), strings)
  {
  }

  lemma PrintNumberNumeric(x: real)
    ensures AllNumeric(PrintNumber(x))
  {
    hide PrintMillionths, Millionths;
    if x < 0.0 {
      PrintNumeric(Millionths(-x));
    } else {
      PrintNumeric(Millionths(x));
    }
  }

  lemma {:induction false} MembersClean(ms: Members, compact: bool, indent: int, gap: string, strings: set<string>)
    requires MemberStrings(ms) <= strings && Gap(gap)
    ensures BodyClean(BodyOf(ms, compact, indent, gap), strings)
    decreases ms
  {
    hide PrintOf, Clean, CstOf, Margin, InnerMargin, Behind, Colon, Gap, Separator;
    LayoutGaps(compact, indent, gap);
    match ms
    case NoMember =>
    case AMember(k, v, rest) =>
      LayoutBasics(compact);
      assert MemberStrings(ms) == {k} + Strings(v) + MemberStrings(rest);
      PrintOfString(k, strings);
      PrintClean(v, compact, indent + 1, strings);
      MembersClean(rest, compact, indent, Behind(rest.NoMember?, compact), strings);
  }

  lemma {:induction false} ItemsClean(es: Items, compact: bool, indent: int, gap: string, strings: set<string>)
    requires ItemStrings(es) <= strings && Gap(gap)
    ensures ElemsClean(ElemsOf(es, compact, indent, gap), strings)
    decreases es
  {
    hide PrintOf, Clean, CstOf, Margin, InnerMargin, Behind, Gap;
    LayoutGaps(compact, indent, gap);
    match es
    case NoItem =>
    case AnItem(v, rest) =>
      LayoutBasics(compact);
      assert ItemStrings(es) == Strings(v) + ItemStrings(rest);
      PrintClean(v, compact, indent + 1, strings);
      ItemsClean(rest, compact, indent, Behind(rest.NoItem?, compact), strings);
  }

  // ---------------------------------------------------------- numbers read back

  ghost const MILLIONTHS: Bounds := Bounds(iset x: string | true, iset x: string | true, iset x: real | SixDecimals(x))

  lemma {:induction false} RereadWithin(o: Ordered)
    requires forall x | x in Numbers(o) :: x >= 0.0
    ensures OrderedWithin(Reread(o), MILLIONTHS)
    decreases o
  {
    match o
    case OObj(ms) =>
      assert Numbers(o) == MemberNumbers(ms);
      RereadMembersWithin(ms);
    case OArr(es) =>
      assert Numbers(o) == ItemNumbers(es);
      RereadItemsWithin(es);
    case ONum(x) =>
      assert x in Numbers(o);
      ReadBackSix(x);
    case _ =>
  }

  lemma ReadBackSix(x: real)
    requires x >= 0.0
    ensures SixDecimals(ReadBack(x))
  {
    hide Millionths;
    var n := Millionths(x);
    assert (n as real / 1000000.0) * 1000000.0 == n as real;
    assert (n as real).Floor == n;
  }

  lemma {:induction false} RereadMembersWithin(ms: Members)
    requires forall x | x in MemberNumbers(ms) :: x >= 0.0
    ensures MembersWithin(RereadMembers(ms), MILLIONTHS)
    decreases ms
  {
    match ms
    case NoMember =>
    case AMember(k, v, rest) =>
      assert MemberNumbers(ms) == Numbers(v) + MemberNumbers(rest);
      RereadWithin(v);
      RereadMembersWithin(rest);
  }

  lemma {:induction false} RereadItemsWithin(es: Items)
    requires forall x | x in ItemNumbers(es) :: x >= 0.0
    ensures ItemsWithin(RereadItems(es), MILLIONTHS)
    decreases es
  {
    match es
    case NoItem =>
    case AnItem(v, rest) =>
      assert ItemNumbers(es) == Numbers(v) + ItemNumbers(rest);
      RereadWithin(v);
      RereadItemsWithin(rest);
  }

  lemma {:induction false} RereadDistinct(o: Ordered)
    requires Distinct(o)
    ensures Distinct(Reread(o))
    decreases o
  {
    match o
    case OObj(ms) => RereadMembersDistinct(ms, {});
    case OArr(es) => RereadItemsDistinct(es);
    case _ =>
  }

  lemma {:induction false} RereadMembersDistinct(ms: Members, keys: set<string>)
    requires MembersDistinct(ms, keys)
    ensures MembersDistinct(RereadMembers(ms), keys)
    decreases ms
  {
    match ms
    case NoMember =>
    case AMember(k, v, rest) =>
      RereadDistinct(v);
      RereadMembersDistinct(rest, keys + {k});
  }

  lemma {:induction false} RereadItemsDistinct(es: Items)
    requires ItemsDistinct(es)
    ensures ItemsDistinct(RereadItems(es))
    decreases es
  {
    match es
    case NoItem =>
    case AnItem(v, rest) =>
      RereadDistinct(v);
      RereadItemsDistinct(rest);
  }

  // --------------------------------------------------------------- the theorem

  /** A tree that is found in its own print can be read back. */
  lemma FoundIsReadable(s: string, o: Ordered, compact: bool, indent: int)
    requires Distinct(o) && s == Print(o, compact, indent) && Within(Tree(o), ReadBounds(s))
    ensures Readable(o)
  {
    hide Print, Within, Spelled;
    var w := ReadBounds(s);
    TreeWithin(o, w);
    OrderedWithinSets(o, w);
    FoundSelfPrinted(s, o, compact, indent);
    forall x | x in Strings(o)
      ensures Spelled(x, {'u', '/'})
    {
      SelfPrintedSpelled(s, Strings(o), x);
    }
  }

  lemma FoundSelfPrinted(s: string, o: Ordered, compact: bool, indent: int)
    requires s == Print(o, compact, indent) && forall x | x in Strings(o) :: ReadFrom(s, x)
    ensures SelfPrinted(s, Strings(o))
  {
    hide Print, Text, ReadFrom, InPrint, Clean;
    PrintFollows(o, compact, indent);
    PrintClean(o, compact, indent, Strings(o));
    assert s[0..] == s;
    assert At(s, 0, s);
    CleanAccounted(s, Strings(o), 0, CstOf(o, compact, indent));
  }

  /** If the numbers come back unchanged they are whole numbers of millionths. */
  lemma RereadFaithful(o: Ordered)
    requires Distinct(o) && Readable(o) && Tree(Reread(o)) == Tree(o)
    ensures Faithful(o)
  {
    hide Tree, Within;
    RereadWithin(o);
    RereadDistinct(o);
    TreeWithin(Reread(o), MILLIONTHS);
    TreeWithin(o, MILLIONTHS);
    OrderedWithinSets(o, MILLIONTHS);
  }

  /** Objects: for every order of the members and every layout. */
  lemma ObjectRoundTrip(o: Ordered, compact: bool, indent: int)
    requires o.OObj? && Distinct(o)
    ensures var s := Print(o, compact, indent);
            ParseObject(s, 0) == Read(Some(|s|), Tree(o).members) <==> Faithful(o)
  {
    hide Print, ParseObject, Readable, Distinct;
    var s := Print(o, compact, indent);
    assert s[0..] == s && At(s, 0, s);
    if Readable(o) {
      ReadableObjectIsRead(s, 0, o, compact, indent);
    }
    if Faithful(o) {
      FaithfulNumbers(o);
      FaithfulReread(o);
    }
    if ParseObject(s, 0) == Read(Some(|s|), Tree(o).members) {
      ReadObjectWithin(s, 0, |s|, Tree(o).members);
      FoundIsReadable(s, o, compact, indent);
      ReadableObjectIsRead(s, 0, o, compact, indent);
      RereadFaithful(o);
    }
  }

  lemma FaithfulNumbers(o: Ordered)
    requires Faithful(o)
    ensures Readable(o) && forall x | x in Numbers(o) :: x >= 0.0 && SixDecimals(x)
  {
  }

  lemma ReadObjectWithin(s: string, b: nat, r: nat, m: map<string, Value>)
    requires b <= |s| && ParseObject(s, b) == Read(Some(r), m)
    ensures Within(Obj(m), ReadBounds(s))
  {
    hide ParseObject, Within, Text, Derives, Denote, ReadBounds;
    ObjectLanguage(s, b, r, m);
    var lead, body :| ObjectDerivation(s, b, r, m, lead, body);
    AtSplit(s, b, lead, Text(CObject(body)));
    DerivedWithin(s, b + |lead|, CObject(body));
  }

  /** Arrays: for every order of the members inside and every layout. */
  lemma ArrayRoundTrip(o: Ordered, compact: bool, indent: int)
    requires o.OArr? && Distinct(o)
    ensures var s := Print(o, compact, indent);
            ParseArray(s, 0) == Read(Some(|s|), Tree(o).items) <==> Faithful(o)
  {
    hide Print, ParseArray, Readable, Distinct;
    var s := Print(o, compact, indent);
    assert s[0..] == s && At(s, 0, s);
    if Readable(o) {
      ReadableArrayIsRead(s, 0, o, compact, indent);
    }
    if Faithful(o) {
      FaithfulNumbers(o);
      FaithfulReread(o);
    }
    if ParseArray(s, 0) == Read(Some(|s|), Tree(o).items) {
      ReadArrayWithin(s, 0, |s|, Tree(o).items);
      FoundIsReadable(s, o, compact, indent);
      ReadableArrayIsRead(s, 0, o, compact, indent);
      RereadFaithful(o);
    }
  }

  lemma ReadArrayWithin(s: string, b: nat, r: nat, items: seq<Value>)
    requires b <= |s| && ParseArray(s, b) == Read(Some(r), items)
    ensures Within(Arr(items), ReadBounds(s))
  {
    hide ParseArray, Text, Derives, Denote, ReadBounds;
    ArrayLanguage(s, b, r, items);
    if lead, elems :| ArrayDerivation(s, b, r, items, lead, elems) {
      AtSplit(s, b, lead, Text(CArray(elems)));
      DerivedWithin(s, b + |lead|, CArray(elems));
    }
  }

  // ------------------------------------------------------ the same for trees without an order

  /** What survives printing and reading: spelled strings, spelled keys that are not empty,
      non-negative numbers of six decimals. */
  ghost const DURABLE: Bounds := Bounds(
    iset x: string | Spelled(x, {'u', '/'}),
    iset x: string | Spelled(x, {'u', '/'}) && x != "",
    iset x: real | NonNegative(x) && SixDecimals(x))

  lemma {:induction false} FaithfulWithin(o: Ordered)
    requires Faithful(o)
    ensures OrderedWithin(o, DURABLE)
    decreases o
  {
    hide Spelled, SixDecimals;
    match o
    case OObj(ms) => FaithfulMembersWithin(ms);
    case OArr(es) => FaithfulItemsWithin(es);
    case OStr(t) => assert t in Strings(o);
    case ONum(x) => assert x in Numbers(o);
    case _ =>
  }

  lemma FaithfulPart(o: Ordered, p: Ordered)
    requires Faithful(o) && Strings(p) <= Strings(o) && Keys(p) <= Keys(o) && Numbers(p) <= Numbers(o)
    ensures Faithful(p)
  {
    hide Strings, Keys, Numbers, Spelled, SixDecimals;
  }

  lemma {:induction false} FaithfulMembersWithin(ms: Members)
    requires Faithful(OObj(ms))
    ensures MembersWithin(ms, DURABLE)
    decreases ms
  {
    hide Spelled, SixDecimals;
    match ms
    case NoMember =>
    case AMember(k, v, rest) =>
      assert MemberStrings(ms) == {k} + Strings(v) + MemberStrings(rest);
      assert MemberKeys(ms) == {k} + Keys(v) + MemberKeys(rest);
      assert MemberNumbers(ms) == Numbers(v) + MemberNumbers(rest);
      var all, others := OObj(ms), OObj(rest);
      assert Strings(all) == MemberStrings(ms) && Keys(all) == MemberKeys(ms) && Numbers(all) == MemberNumbers(ms);
      assert Strings(others) == MemberStrings(rest) && Keys(others) == MemberKeys(rest) && Numbers(others) == MemberNumbers(rest);
      FaithfulPart(all, v);
      FaithfulPart(all, others);
      FaithfulWithin(v);
      FaithfulMembersWithin(rest);
      assert k in MemberStrings(ms) && k in MemberKeys(ms);
  }

  lemma {:induction false} FaithfulItemsWithin(es: Items)
    requires Faithful(OArr(es))
    ensures ItemsWithin(es, DURABLE)
    decreases es
  {
    hide Spelled, SixDecimals;
    match es
    case NoItem =>
    case AnItem(v, rest) =>
      assert ItemStrings(es) == Strings(v) + ItemStrings(rest);
      assert ItemKeys(es) == Keys(v) + ItemKeys(rest);
      assert ItemNumbers(es) == Numbers(v) + ItemNumbers(rest);
      var all, others := OArr(es), OArr(rest);
      assert Strings(all) == ItemStrings(es) && Keys(all) == ItemKeys(es) && Numbers(all) == ItemNumbers(es);
      assert Strings(others) == ItemStrings(rest) && Keys(others) == ItemKeys(rest) && Numbers(others) == ItemNumbers(rest);
      FaithfulPart(all, v);
      FaithfulPart(all, others);
      FaithfulWithin(v);
      FaithfulItemsWithin(rest);
  }

  /** Whether a tree survives does not depend on the order in which it is printed. */
  lemma FaithfulIsDurable(o: Ordered)
    requires Distinct(o)
    ensures Faithful(o) <==> Within(Tree(o), DURABLE)
  {
    hide Tree, Within, OrderedWithin, Distinct, Spelled, SixDecimals;
    TreeWithin(o, DURABLE);
    if Faithful(o) {
      FaithfulWithin(o);
    }
    if OrderedWithin(o, DURABLE) {
      OrderedWithinSets(o, DURABLE);
    }
  }

  // ------------------------------------------------------ trees that do not come back

  /** An array of one leaf is read back exactly if the leaf survives. */
  lemma SingleRoundTrip(leaf: Ordered, compact: bool, indent: int)
    requires leaf.ONum? || leaf.OStr?
    ensures var o := OArr(AnItem(leaf, NoItem));
            var s := Print(o, compact, indent);
            ParseArray(s, 0) == Read(Some(|s|), Tree(o).items) <==>
            match leaf case ONum(x) => x >= 0.0 && SixDecimals(x) case OStr(t) => Spelled(t, {'u', '/'}) case _ => true
  {
    var es := AnItem(leaf, NoItem);
    var o := OArr(es);
    assert Distinct(leaf) && ItemsDistinct(NoItem) && ItemsDistinct(es);
    ArrayRoundTrip(o, compact, indent);
    SingleSets(leaf);
    assert leaf.ONum? ==> leaf.number in Numbers(o);
    assert leaf.OStr? ==> leaf.text in Strings(o);
  }

  lemma SingleSets(leaf: Ordered)
    requires leaf.ONum? || leaf.OStr?
    ensures var o := OArr(AnItem(leaf, NoItem));
            Strings(o) == Strings(leaf) && Keys(o) == {} && Numbers(o) == Numbers(leaf)
  {
    var es := AnItem(leaf, NoItem);
    assert ItemStrings(NoItem) == {} && ItemKeys(NoItem) == {} && ItemNumbers(NoItem) == {};
    assert ItemStrings(es) == Strings(leaf) + ItemStrings(NoItem) == Strings(leaf);
    assert ItemKeys(es) == Keys(leaf) + ItemKeys(NoItem) == {};
    assert ItemNumbers(es) == Numbers(leaf) + ItemNumbers(NoItem) == Numbers(leaf);
  }

  /** A negative number, a lone backslash and a seventh decimal are lost, in every layout. */
  lemma LostInPrint(compact: bool, indent: int)
    ensures forall leaf | leaf in {ONum(-1.0), ONum(0.0000001), OStr("\\")} ::
              var o := OArr(AnItem(leaf, NoItem));
              var s := Print(o, compact, indent);
              ParseArray(s, 0) != Read(Some(|s|), Tree(o).items)
  {
    hide Print, ParseArray, Tree;
    SingleRoundTrip(ONum(-1.0), compact, indent);
    SingleRoundTrip(ONum(0.0000001), compact, indent);
    SingleRoundTrip(OStr("\\"), compact, indent);
    assert !SpelledAt("\\", {'u', '/'}, 0);
  }
}
