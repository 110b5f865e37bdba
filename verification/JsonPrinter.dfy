/** The JSON printer, for every order in which the members of an object may be iterated. */
module JsonPrinter {
  import opened Texts
  import opened JsonStrings
  import opened JsonNumbers
  import opened JsonReader
  import opened JsonGrammar
  import opened JsonLanguage

  /** A tree together with an iteration order of the members of each of its objects. */
  datatype Ordered =
    | OObj(members: Members)
    | OArr(items: Items)
    | OStr(text: string)
    | ONum(number: real)
    | OBool(flag: bool)
    | ONull

  datatype Members = NoMember | AMember(key: string, value: Ordered, rest: Members)

  datatype Items = NoItem | AnItem(value: Ordered, rest: Items)

  /** The tree, with the orders forgotten. */
  function Tree(o: Ordered): Value {
    match o
    case OObj(ms) => Obj(MembersInto(ms, map[]))
    case OArr(es) => Arr(ItemsInto(es, []))
    case OStr(t) => Str(t)
    case ONum(x) => Num(x)
    case OBool(b) => Bool(b)
    case ONull => Null
  }

  function MembersInto(ms: Members, members: map<string, Value>): map<string, Value> {
    match ms
    case NoMember => members
    case AMember(k, v, rest) => MembersInto(rest, members[k := Tree(v)])
  }

  function ItemsInto(es: Items, items: seq<Value>): seq<Value> {
    match es
    case NoItem => items
    case AnItem(v, rest) => ItemsInto(rest, items + [Tree(v)])
  }

  /** The keys of every object are distinct, as in a map. */
  predicate Distinct(o: Ordered) {
    match o
    case OObj(ms) => MembersDistinct(ms, {})
    case OArr(es) => ItemsDistinct(es)
    case _ => true
  }

  predicate MembersDistinct(ms: Members, keys: set<string>) {
    match ms
    case NoMember => true
    case AMember(k, v, rest) => k !in keys && Distinct(v) && MembersDistinct(rest, keys + {k})
  }

  predicate ItemsDistinct(es: Items) {
    match es
    case NoItem => true
    case AnItem(v, rest) => Distinct(v) && ItemsDistinct(rest)
  }

  // ------------------------------------------------------------------ printing

  function Indentation(n: int): string {
    if n <= 0 then "" else Indentation(n - 1) + "    "
  }

  function NewLine(compact: bool): string {
    if compact then "" else "\r\n"
  }

  function Margin(compact: bool, indent: int): string {
    if compact then "" else Indentation(indent)
  }

  function InnerMargin(compact: bool, indent: int): string {
    if compact then "" else Indentation(indent) + "    "
  }

  function Colon(compact: bool): string {
    if compact then ":" else ": "
  }

  function Print(o: Ordered, compact: bool, indent: int): string
    decreases o, 0
  {
    match o
    case OObj(ms) => ['{'] + (NewLine(compact) + (PrintMembers(ms, compact, indent) + (Margin(compact, indent) + ['}'])))
    case OArr(es) => ['['] + (NewLine(compact) + (PrintItems(es, compact, indent) + (Margin(compact, indent) + [']'])))
    case OStr(t) => Quote(Encode(t))
    case ONum(x) => PrintNumber(x)
    case OBool(b) => if b then "true" else "false"
    case ONull => "null"
  }

  /** What is printed behind a member or an element: a comma unless it is the last, and the line end. */
  function Behind(last: bool, compact: bool): string {
    (if last then "" else ",") + NewLine(compact)
  }

  function PrintMember(k: string, v: Ordered, compact: bool, indent: int): string
    decreases v, 1
  {
    Quote(Encode(k)) + (Colon(compact) + Print(v, compact, indent + 1))
  }

  function PrintMembers(ms: Members, compact: bool, indent: int): string
    decreases ms, 0
  {
    match ms
    case NoMember => ""
    case AMember(k, v, rest) =>
      InnerMargin(compact, indent)
      + (PrintMember(k, v, compact, indent) + (Behind(rest.NoMember?, compact) + PrintMembers(rest, compact, indent)))
  }

  function PrintItems(es: Items, compact: bool, indent: int): string
    decreases es, 0
  {
    match es
    case NoItem => ""
    case AnItem(v, rest) =>
      InnerMargin(compact, indent)
      + (Print(v, compact, indent + 1) + (Behind(rest.NoItem?, compact) + PrintItems(rest, compact, indent)))
  }

  // ------------------------------------------------------ the print as a derivation

  /** The derivation that the print follows; the gap before an entry is what was printed since the last one. */
  function CstOf(o: Ordered, compact: bool, indent: int): Cst {
    match o
    case OObj(ms) => CObject(BodyOf(ms, compact, indent, NewLine(compact)))
    case OArr(es) => CArray(ElemsOf(es, compact, indent, NewLine(compact)))
    case OStr(t) => CString(Encode(t))
    case ONum(x) => CNumber(PrintNumber(x))
    case OBool(b) => if b then CTrue else CFalse("alse")
    case ONull => CNull("ull")
  }

  function BodyOf(ms: Members, compact: bool, indent: int, gap: string): Body {
    match ms
    case NoMember => BodyEnd(gap + Margin(compact, indent))
    case AMember(k, v, rest) =>
      BodyNext(gap + InnerMargin(compact, indent),
               Member(Encode(k), Colon(compact), CstOf(v, compact, indent + 1)),
               BodyOf(rest, compact, indent, Behind(rest.NoMember?, compact)))
  }

  function ElemsOf(es: Items, compact: bool, indent: int, gap: string): Elems {
    match es
    case NoItem => ElemsEnd(gap + Margin(compact, indent))
    case AnItem(v, rest) =>
      ElemsNext(gap + InnerMargin(compact, indent), CstOf(v, compact, indent + 1),
                ElemsOf(rest, compact, indent, Behind(rest.NoItem?, compact)))
  }

  lemma {:induction false} PrintFollows(o: Ordered, compact: bool, indent: int)
    ensures Text(CstOf(o, compact, indent)) == Print(o, compact, indent)
    decreases o
  {
    match o
    case OObj(ms) => MembersFollow(ms, compact, indent, NewLine(compact));
    case OArr(es) => ItemsFollow(es, compact, indent, NewLine(compact));
    case OBool(b) => assert ['f'] + "alse" == "false";
    case ONull => assert ['n'] + "ull" == "null";
    case _ =>
  }

  lemma {:induction false} MembersFollow(ms: Members, compact: bool, indent: int, gap: string)
    ensures BodyText(BodyOf(ms, compact, indent, gap)) ==
            gap + (PrintMembers(ms, compact, indent) + (Margin(compact, indent) + ['}']))
    decreases ms
  {
    hide Print, PrintMember, Margin, InnerMargin, Behind, CstOf, Text, Quote;
    var margin := Margin(compact, indent);
    match ms
    case NoMember =>
      assert (gap + margin) + ['}'] == gap + ("" + (margin + ['}']));
    case AMember(k, v, rest) =>
      PrintFollows(v, compact, indent + 1);
      var behind := Behind(rest.NoMember?, compact);
      MembersFollow(rest, compact, indent, behind);
      MemberFollows(k, v, compact, indent);
      Regroup(gap, InnerMargin(compact, indent), PrintMember(k, v, compact, indent), behind,
              PrintMembers(rest, compact, indent), margin + ['}']);
  }

  lemma MemberFollows(k: string, v: Ordered, compact: bool, indent: int)
    requires Text(CstOf(v, compact, indent + 1)) == Print(v, compact, indent + 1)
    ensures EntryText(Member(Encode(k), Colon(compact), CstOf(v, compact, indent + 1))) == PrintMember(k, v, compact, indent)
  {
  }

  lemma Regroup(gap: string, inner: string, one: string, behind: string, more: string, close: string)
    ensures (gap + inner) + (one + (behind + (more + close))) == gap + ((inner + (one + (behind + more))) + close)
  {
  }

  lemma {:induction false} ItemsFollow(es: Items, compact: bool, indent: int, gap: string)
    ensures ElemsText(ElemsOf(es, compact, indent, gap)) ==
            gap + (PrintItems(es, compact, indent) + (Margin(compact, indent) + [']']))
    decreases es
  {
    hide Print, Margin, InnerMargin, Behind, CstOf, Text;
    var margin := Margin(compact, indent);
    match es
    case NoItem =>
      assert (gap + margin) + [']'] == gap + ("" + (margin + [']']));
    case AnItem(v, rest) =>
      PrintFollows(v, compact, indent + 1);
      var behind := Behind(rest.NoItem?, compact);
      ItemsFollow(rest, compact, indent, behind);
      Regroup(gap, InnerMargin(compact, indent), Print(v, compact, indent + 1), behind,
              PrintItems(rest, compact, indent), margin + [']']);
  }

  // --------------------------------------------------------- what can be read back

  function Strings(o: Ordered): set<string> {
    match o
    case OObj(ms) => MemberStrings(ms)
    case OArr(es) => ItemStrings(es)
    case OStr(t) => {t}
    case _ => {}
  }

  function MemberStrings(ms: Members): set<string> {
    match ms case NoMember => {} case AMember(k, v, rest) => {k} + Strings(v) + MemberStrings(rest)
  }

  function ItemStrings(es: Items): set<string> {
    match es case NoItem => {} case AnItem(v, rest) => Strings(v) + ItemStrings(rest)
  }

  function Keys(o: Ordered): set<string> {
    match o
    case OObj(ms) => MemberKeys(ms)
    case OArr(es) => ItemKeys(es)
    case _ => {}
  }

  function MemberKeys(ms: Members): set<string> {
    match ms case NoMember => {} case AMember(k, v, rest) => {k} + Keys(v) + MemberKeys(rest)
  }

  function ItemKeys(es: Items): set<string> {
    match es case NoItem => {} case AnItem(v, rest) => Keys(v) + ItemKeys(rest)
  }

  function Numbers(o: Ordered): set<real> {
    match o
    case OObj(ms) => MemberNumbers(ms)
    case OArr(es) => ItemNumbers(es)
    case ONum(x) => {x}
    case _ => {}
  }

  function MemberNumbers(ms: Members): set<real> {
    match ms case NoMember => {} case AMember(_, v, rest) => Numbers(v) + MemberNumbers(rest)
  }

  function ItemNumbers(es: Items): set<real> {
    match es case NoItem => {} case AnItem(v, rest) => Numbers(v) + ItemNumbers(rest)
  }

  /** The strings are read back, no key is empty, no number is negative. */
  predicate Readable(o: Ordered) {
    && (forall x | x in Strings(o) :: Spelled(x, {'u', '/'}))
    && "" !in Keys(o)
    && (forall x | x in Numbers(o) :: x >= 0.0)
  }

  /** The tree that is read back: its numbers are rounded to six decimals. */
  function Reread(o: Ordered): Ordered {
    match o
    case OObj(ms) => OObj(RereadMembers(ms))
    case OArr(es) => OArr(RereadItems(es))
    case ONum(x) => ONum(if x >= 0.0 then ReadBack(x) else x)
    case _ => o
  }

  function RereadMembers(ms: Members): Members {
    match ms case NoMember => NoMember case AMember(k, v, rest) => AMember(k, Reread(v), RereadMembers(rest))
  }

  function RereadItems(es: Items): Items {
    match es case NoItem => NoItem case AnItem(v, rest) => AnItem(Reread(v), RereadItems(rest))
  }

  // ------------------------------------------------ the print is derived and denotes

  lemma {:induction false} IndentationBlank(n: int)
    ensures Blank(Indentation(n))
  {
    if n > 0 {
      IndentationBlank(n - 1);
    }
  }

  /** What is printed around entries are gaps, and there is a comma before every entry but the first. */
  lemma LayoutGaps(compact: bool, indent: int, gap: string)
    requires Gap(gap)
    ensures Gap(gap + Margin(compact, indent)) && Gap(gap + InnerMargin(compact, indent))
    ensures ',' in gap ==> ',' in gap + InnerMargin(compact, indent)
  {
    IndentationBlank(indent);
  }

  lemma LayoutBasics(compact: bool)
    ensures Gap(NewLine(compact)) && Separator(Colon(compact)) && ':' in Colon(compact)
    ensures forall last :: Gap(Behind(last, compact))
    ensures ',' in Behind(false, compact)
  {
    assert ":"[0] == ':' && ": "[0] == ':';
    assert Behind(false, compact)[0] == ',';
  }

  lemma LeafDerives(o: Ordered, compact: bool, indent: int)
    requires Readable(o) && !o.OObj? && !o.OArr?
    ensures Derives(CstOf(o, compact, indent))
    ensures Denote(CstOf(o, compact, indent)) == Tree(Reread(o))
  {
    match o
    case OStr(t) => StringDerives(t);
    case ONum(x) =>
      assert x in Numbers(o);
      NumberDerives(x);
    case _ =>
  }

  lemma StringDerives(t: string)
    requires Spelled(t, {'u', '/'})
    ensures Raw(Encode(t)) && Decode(Encode(t)) == t
  {
    SpelledWider(t);
    StringDomain(t);
    RawDomain(t);
  }

  lemma NumberDerives(x: real)
    requires x >= 0.0
    ensures Derives(CNumber(PrintNumber(x))) && Denote(CNumber(PrintNumber(x))) == Num(ReadBack(x))
  {
    hide Stod, Millionths, PrintMillionths;
    PrintError(x);
    PrintNumeric(Millionths(x));
  }

  lemma {:induction false} PrintDerives(o: Ordered, compact: bool, indent: int)
    requires Readable(o) && Distinct(o)
    ensures Derives(CstOf(o, compact, indent))
    ensures Denote(CstOf(o, compact, indent)) == Tree(Reread(o))
    decreases o
  {
    hide Spelled, Decode, Encode, Raw, NewLine;
    LayoutBasics(compact);
    match o
    case OObj(ms) => MembersDerive(ms, compact, indent, NewLine(compact), false, true, {}, map[]);
    case OArr(es) => ItemsDerive(es, compact, indent, NewLine(compact), true, []);
    case _ => LeafDerives(o, compact, indent);
  }

  lemma {:induction false} MembersDerive(ms: Members, compact: bool, indent: int, gap: string, colon: bool, first: bool,
                                         keys: set<string>, members: map<string, Value>)
    requires Readable(OObj(ms)) && MembersDistinct(ms, keys)
    requires Gap(gap) && (ms.AMember? ==> first || ',' in gap)
    ensures BodyDerives(BodyOf(ms, compact, indent, gap), colon, first, keys)
    ensures BodyInto(BodyOf(ms, compact, indent, gap), members) == MembersInto(RereadMembers(ms), members)
    decreases ms
  {
    hide Spelled, Decode, Encode, Raw, Gap, Separator, Derives, Denote, CstOf, Margin, InnerMargin, Behind, Colon, Tree, Reread;
    LayoutGaps(compact, indent, gap);
    match ms
    case NoMember =>
    case AMember(k, v, rest) =>
      LayoutBasics(compact);
      MemberReadable(k, v, rest);
      StringDerives(k);
      PrintDerives(v, compact, indent + 1);
      var c := CstOf(v, compact, indent + 1);
      MembersDerive(rest, compact, indent, Behind(rest.NoMember?, compact), !c.CString?, false, keys + {k}, members[k := Denote(c)]);
  }

  lemma MemberReadable(k: string, v: Ordered, rest: Members)
    requires Readable(OObj(AMember(k, v, rest)))
    ensures Spelled(k, {'u', '/'}) && k != "" && Readable(v) && Readable(OObj(rest))
  {
    var o := OObj(AMember(k, v, rest));
    assert Strings(o) == {k} + Strings(v) + MemberStrings(rest);
    assert Keys(o) == {k} + Keys(v) + MemberKeys(rest);
    assert Numbers(o) == Numbers(v) + MemberNumbers(rest);
    assert k in Strings(o);
  }

  lemma {:induction false} ItemsDerive(es: Items, compact: bool, indent: int, gap: string, first: bool, items: seq<Value>)
    requires Readable(OArr(es)) && ItemsDistinct(es)
    requires Gap(gap) && (es.AnItem? ==> first || ',' in gap)
    ensures ElemsDerives(ElemsOf(es, compact, indent, gap), first)
    ensures ElemsInto(ElemsOf(es, compact, indent, gap), items) == ItemsInto(RereadItems(es), items)
    decreases es
  {
    hide Spelled, Decode, Encode, Raw, Gap, Separator, Derives, Denote, CstOf, Margin, InnerMargin, Behind, Colon, Tree, Reread;
    LayoutGaps(compact, indent, gap);
    match es
    case NoItem =>
    case AnItem(v, rest) =>
      LayoutBasics(compact);
      ItemReadable(v, rest);
      PrintDerives(v, compact, indent + 1);
      ItemsDerive(rest, compact, indent, Behind(rest.NoItem?, compact), false, items + [Denote(CstOf(v, compact, indent + 1))]);
  }

  lemma ItemReadable(v: Ordered, rest: Items)
    requires Readable(OArr(AnItem(v, rest)))
    ensures Readable(v) && Readable(OArr(rest))
  {
    var o := OArr(AnItem(v, rest));
    assert Strings(o) == Strings(v) + ItemStrings(rest);
    assert Keys(o) == Keys(v) + ItemKeys(rest);
    assert Numbers(o) == Numbers(v) + ItemNumbers(rest);
  }

  // ------------------------------------------------------------- the round trip

  /** Whatever can be read back is read, in every order and layout, with its numbers rounded to six decimals. */
  lemma ReadableObjectIsRead(s: string, b: nat, o: Ordered, compact: bool, indent: int)
    requires o.OObj? && Distinct(o) && Readable(o) && At(s, b, Print(o, compact, indent))
    ensures ParseObject(s, b) == Read(Some(b + |Print(o, compact, indent)|), Tree(Reread(o)).members)
  {
    hide Print, Derives, Denote, ParseObject, Readable, Distinct;
    PrintFollows(o, compact, indent);
    PrintDerives(o, compact, indent);
    var body := CstOf(o, compact, indent).body;
    assert "" + Text(CObject(body)) == Text(CObject(body));
    DerivationIsObject(s, b, b + |Text(CObject(body))|, Tree(Reread(o)).members, "", body);
  }

  lemma ReadableArrayIsRead(s: string, b: nat, o: Ordered, compact: bool, indent: int)
    requires o.OArr? && Distinct(o) && Readable(o) && At(s, b, Print(o, compact, indent))
    ensures ParseArray(s, b) == Read(Some(b + |Print(o, compact, indent)|), Tree(Reread(o)).items)
  {
    hide Print, Derives, Denote, ParseArray, Readable, Distinct;
    PrintFollows(o, compact, indent);
    PrintDerives(o, compact, indent);
    var elems := CstOf(o, compact, indent).elems;
    assert "" + Text(CArray(elems)) == Text(CArray(elems));
    DerivationIsArray(s, b, b + |Text(CArray(elems))|, Tree(Reread(o)).items, "", elems);
  }

  /** What survives a round trip: strings that are read back, no empty key, non-negative numbers of millionths. */
  predicate Faithful(o: Ordered) {
    Readable(o) && forall x | x in Numbers(o) :: SixDecimals(x)
  }

  lemma {:induction false} FaithfulReread(o: Ordered)
    requires forall x | x in Numbers(o) :: x >= 0.0 && SixDecimals(x)
    ensures Reread(o) == o
    decreases o
  {
    match o
    case OObj(ms) =>
      assert Numbers(o) == MemberNumbers(ms);
      FaithfulMembers(ms);
    case OArr(es) =>
      assert Numbers(o) == ItemNumbers(es);
      FaithfulItems(es);
    case ONum(x) =>
      assert x in Numbers(o);
      ReadBackExact(x);
    case _ =>
  }

  lemma {:induction false} FaithfulMembers(ms: Members)
    requires forall x | x in MemberNumbers(ms) :: x >= 0.0 && SixDecimals(x)
    ensures RereadMembers(ms) == ms
    decreases ms
  {
    match ms
    case NoMember =>
    case AMember(_, v, rest) =>
      assert MemberNumbers(ms) == Numbers(v) + MemberNumbers(rest);
      FaithfulReread(v);
      FaithfulMembers(rest);
  }

  lemma {:induction false} FaithfulItems(es: Items)
    requires forall x | x in ItemNumbers(es) :: x >= 0.0 && SixDecimals(x)
    ensures RereadItems(es) == es
    decreases es
  {
    match es
    case NoItem =>
    case AnItem(v, rest) =>
      assert ItemNumbers(es) == Numbers(v) + ItemNumbers(rest);
      FaithfulReread(v);
      FaithfulItems(rest);
  }

  // ----------------------------------------------------- printing one entry more

  function MembersSnoc(ms: Members, k: string, v: Ordered): Members {
    match ms case NoMember => AMember(k, v, NoMember) case AMember(l, u, rest) => AMember(l, u, MembersSnoc(rest, k, v))
  }

  function ItemsSnoc(es: Items, v: Ordered): Items {
    match es case NoItem => AnItem(v, NoItem) case AnItem(u, rest) => AnItem(u, ItemsSnoc(rest, v))
  }

  /** The print of the first members; `more` tells that others follow. */
  function PrintFirst(ms: Members, more: bool, compact: bool, indent: int): string {
    match ms
    case NoMember => ""
    case AMember(k, v, rest) =>
      InnerMargin(compact, indent)
      + (PrintMember(k, v, compact, indent) + (Behind(rest.NoMember? && !more, compact) + PrintFirst(rest, more, compact, indent)))
  }

  function PrintFirstItems(es: Items, more: bool, compact: bool, indent: int): string {
    match es
    case NoItem => ""
    case AnItem(v, rest) =>
      InnerMargin(compact, indent)
      + (Print(v, compact, indent + 1) + (Behind(rest.NoItem? && !more, compact) + PrintFirstItems(rest, more, compact, indent)))
  }

  lemma {:induction false} PrintFirstAll(ms: Members, compact: bool, indent: int)
    ensures PrintFirst(ms, false, compact, indent) == PrintMembers(ms, compact, indent)
  {
    hide PrintMember, Behind, InnerMargin;
    if ms.AMember? {
      PrintFirstAll(ms.rest, compact, indent);
    }
  }

  lemma {:induction false} PrintFirstAllItems(es: Items, compact: bool, indent: int)
    ensures PrintFirstItems(es, false, compact, indent) == PrintItems(es, compact, indent)
  {
    hide Print, Behind, InnerMargin;
    if es.AnItem? {
      PrintFirstAllItems(es.rest, compact, indent);
    }
  }

  lemma Prepend(inner: string, one: string, behind: string, more: string, last: string)
    ensures inner + (one + (behind + (more + last))) == (inner + (one + (behind + more))) + last
  {
  }

  lemma {:induction false} PrintFirstSnoc(ms: Members, k: string, v: Ordered, more: bool, compact: bool, indent: int)
    ensures PrintFirst(MembersSnoc(ms, k, v), more, compact, indent) ==
            PrintFirst(ms, true, compact, indent)
            + (InnerMargin(compact, indent) + (PrintMember(k, v, compact, indent) + Behind(!more, compact)))
  {
    hide PrintMember, Behind, InnerMargin;
    match ms
    case NoMember =>
      assert Behind(!more, compact) + "" == Behind(!more, compact);
    case AMember(l, u, rest) =>
      PrintFirstSnoc(rest, k, v, more, compact, indent);
      Prepend(InnerMargin(compact, indent), PrintMember(l, u, compact, indent), Behind(false, compact),
              PrintFirst(rest, true, compact, indent),
              InnerMargin(compact, indent) + (PrintMember(k, v, compact, indent) + Behind(!more, compact)));
  }

  lemma {:induction false} PrintFirstItemsSnoc(es: Items, v: Ordered, more: bool, compact: bool, indent: int)
    ensures PrintFirstItems(ItemsSnoc(es, v), more, compact, indent) ==
            PrintFirstItems(es, true, compact, indent)
            + (InnerMargin(compact, indent) + (Print(v, compact, indent + 1) + Behind(!more, compact)))
  {
    hide Print, Behind, InnerMargin;
    match es
    case NoItem =>
      assert Behind(!more, compact) + "" == Behind(!more, compact);
    case AnItem(u, rest) =>
      PrintFirstItemsSnoc(rest, v, more, compact, indent);
      Prepend(InnerMargin(compact, indent), Print(u, compact, indent + 1), Behind(false, compact),
              PrintFirstItems(rest, true, compact, indent),
              InnerMargin(compact, indent) + (Print(v, compact, indent + 1) + Behind(!more, compact)));
  }

  lemma {:induction false} MembersSnocTree(ms: Members, k: string, v: Ordered, m: map<string, Value>)
    requires MembersDistinct(ms, m.Keys) && k !in MembersInto(ms, m) && Distinct(v)
    ensures MembersInto(MembersSnoc(ms, k, v), m) == MembersInto(ms, m)[k := Tree(v)]
    ensures MembersDistinct(MembersSnoc(ms, k, v), m.Keys)
    decreases ms
  {
    hide Tree, Distinct;
    match ms
    case NoMember =>
      assert m.Keys + {k} == m[k := Tree(v)].Keys;
    case AMember(l, u, rest) =>
      var more := m[l := Tree(u)];
      assert more.Keys == m.Keys + {l};
      MembersSnocTree(rest, k, v, more);
      MembersKept(rest, more);
  }

  /** What is stored stays stored. */
  lemma {:induction false} MembersKept(ms: Members, m: map<string, Value>)
    ensures m.Keys <= MembersInto(ms, m).Keys
  {
    hide Tree;
    if ms.AMember? {
      MembersKept(ms.rest, m[ms.key := Tree(ms.value)]);
    }
  }

  lemma {:induction false} ItemsSnocTree(es: Items, v: Ordered, items: seq<Value>)
    requires ItemsDistinct(es) && Distinct(v)
    ensures ItemsInto(ItemsSnoc(es, v), items) == ItemsInto(es, items) + [Tree(v)]
    ensures ItemsDistinct(ItemsSnoc(es, v))
    decreases es
  {
    hide Tree, Distinct;
    if es.AnItem? {
      ItemsSnocTree(es.rest, v, items + [Tree(es.value)]);
    }
  }
}
