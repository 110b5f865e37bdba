/** The language of the reader as a grammar of derivation trees, and the trees of values they denote. */
module JsonGrammar {
  import opened Texts
  import opened JsonStrings
  import opened JsonNumbers
  import opened JsonReader

  /** A derivation of a value. Five characters after `f`, four after `n`, are taken whatever they are. */
  datatype Cst =
    | CObject(body: Body)
    | CArray(elems: Elems)
    | CString(raw: string)
    | CNumber(digits: string)
    | CTrue
    | CFalse(junk: string)
    | CNull(junk: string)

  /** The inside of an object, up to and with its closing brace. */
  datatype Body = BodyEnd(gap: string) | BodyNext(gap: string, entry: Entry, rest: Body)

  /** A member, or a key standing alone. */
  datatype Entry = Alone(raw: string) | Member(raw: string, sep: string, value: Cst)

  /** The inside of an array, up to and with its closing bracket. */
  datatype Elems = ElemsEnd(gap: string) | ElemsNext(gap: string, value: Cst, rest: Elems)

  // ------------------------------------------------------------------ the text

  function Quote(raw: string): string {
    "\"" + raw + "\""
  }

  function Text(v: Cst): string {
    match v
    case CObject(b) => ['{'] + BodyText(b)
    case CArray(e) => ['['] + ElemsText(e)
    case CString(raw) => Quote(raw)
    case CNumber(digits) => digits
    case CTrue => "true"
    case CFalse(junk) => ['f'] + junk
    case CNull(junk) => ['n'] + junk
  }

  function EntryText(e: Entry): string {
    match e
    case Alone(raw) => Quote(raw)
    case Member(raw, sep, v) => Quote(raw) + (sep + Text(v))
  }

  function BodyText(b: Body): string {
    match b
    case BodyEnd(gap) => gap + ['}']
    case BodyNext(gap, e, rest) => gap + (EntryText(e) + BodyText(rest))
  }

  function ElemsText(e: Elems): string {
    match e
    case ElemsEnd(gap) => gap + [']']
    case ElemsNext(gap, v, rest) => gap + (Text(v) + ElemsText(rest))
  }

  // ------------------------------------------------------------- well-formedness

  /** What may stand between entries: blanks and any number of commas. */
  predicate Gap(t: string) {
    forall c | c in t :: Skippable(c) || c == ','
  }

  /** What may stand between a key and its value: blanks and any number of colons. */
  predicate Separator(t: string) {
    forall c | c in t :: Skippable(c) || c == ':'
  }

  predicate Derives(v: Cst) {
    match v
    case CObject(b) => BodyDerives(b, false, true, {})
    case CArray(e) => ElemsDerives(e, true)
    case CString(raw) => Raw(raw)
    case CNumber(digits) => |digits| > 0 && Digit(digits[0]) && AllNumeric(digits)
    case CTrue => true
    case CFalse(junk) => |junk| == 4
    case CNull(junk) => |junk| == 3
  }

  /** `colon`: a colon was seen since the last string value. `first`: no comma is needed before an entry.
      `keys`: the keys that are taken. */
  predicate BodyDerives(b: Body, colon: bool, first: bool, keys: set<string>) {
    match b
    case BodyEnd(gap) => Gap(gap)
    case BodyNext(gap, Alone(raw), rest) =>
      Gap(gap) && (first || ',' in gap) && Raw(raw) && Decode(raw) == "" && BodyDerives(rest, colon, false, keys)
    case BodyNext(gap, Member(raw, sep, v), rest) =>
      && Gap(gap) && (first || ',' in gap)
      && Raw(raw) && Decode(raw) != "" && Decode(raw) !in keys
      && Separator(sep) && Derives(v)
      && (v.CString? ==> colon || ':' in sep)
      && BodyDerives(rest, !v.CString? && (colon || ':' in sep), false, keys + {Decode(raw)})
  }

  predicate ElemsDerives(e: Elems, first: bool) {
    match e
    case ElemsEnd(gap) => Gap(gap)
    case ElemsNext(gap, v, rest) => Gap(gap) && (first || ',' in gap) && Derives(v) && ElemsDerives(rest, false)
  }

  // ---------------------------------------------------------------- the denotation

  function Denote(v: Cst): Value {
    match v
    case CObject(b) => Obj(BodyInto(b, map[]))
    case CArray(e) => Arr(ElemsInto(e, []))
    case CString(raw) => Str(Decode(raw))
    case CNumber(digits) => Num(match Stod(digits) case Some(x) => x case None => 0.0)
    case CTrue => Bool(true)
    case CFalse(_) => Bool(false)
    case CNull(_) => Null
  }

  function BodyInto(b: Body, members: map<string, Value>): map<string, Value> {
    match b
    case BodyEnd(_) => members
    case BodyNext(_, Alone(_), rest) => BodyInto(rest, members)
    case BodyNext(_, Member(raw, _, v), rest) => BodyInto(rest, members[Decode(raw) := Denote(v)])
  }

  function ElemsInto(e: Elems, items: seq<Value>): seq<Value> {
    match e
    case ElemsEnd(_) => items
    case ElemsNext(_, v, rest) => ElemsInto(rest, items + [Denote(v)])
  }

  // ------------------------------------------------- steps of the loops, one by one

  lemma QuoteAt(s: string, i: nat, raw: string)
    requires At(s, i, Quote(raw)) && Raw(raw)
    ensures i < |s| && s[i] == '"' && |Quote(raw)| == |raw| + 2
    ensures ParseQuoted(s, i) == Some(Quoted(Decode(raw), i + |raw| + 2))
  {
    hide Decode, Raw, ParseQuoted;
    AtQuoted(s, i, raw);
    QuotedAt(s, i, raw);
  }

  lemma {:induction false} GapStep(s: string, st: ObjectState, gap: string)
    requires st.open && st.attr == "" && Gap(gap) && At(s, st.idx, gap)
    ensures ReadObject(s, st) == ReadObject(s, st.(idx := st.idx + |gap|, allow := st.allow || ',' in gap))
    decreases |gap|
  {
    if gap != "" {
      var c, rest := gap[0], gap[1..];
      assert gap == [c] + rest;
      AtCons(s, st.idx, c, rest);
      GapStep(s, st.(idx := st.idx + 1, allow := st.allow || c == ','), rest);
    }
  }

  lemma {:induction false} SeparatorStep(s: string, st: ObjectState, sep: string)
    requires st.open && st.attr != "" && Separator(sep) && At(s, st.idx, sep)
    ensures ReadObject(s, st) == ReadObject(s, st.(idx := st.idx + |sep|, colon := st.colon || ':' in sep))
    decreases |sep|
  {
    if sep != "" {
      var c, rest := sep[0], sep[1..];
      assert sep == [c] + rest;
      AtCons(s, st.idx, c, rest);
      SeparatorStep(s, st.(idx := st.idx + 1, colon := st.colon || c == ':'), rest);
    }
  }

  lemma KeyStep(s: string, st: ObjectState, raw: string)
    requires st.open && st.attr == "" && st.allow && Raw(raw) && At(s, st.idx, Quote(raw))
    ensures ReadObject(s, st) == ReadObject(s, st.(idx := st.idx + |raw| + 2, attr := Decode(raw), allow := false))
  {
    hide Decode, Raw;
    QuoteAt(s, st.idx, raw);
  }

  lemma ValueStep(s: string, st: ObjectState, v: Value, next: nat)
    requires st.open && st.attr != "" && st.idx < |s|
    requires ReadValue(s, st.idx) == Taken(v, next) && (s[st.idx] == '"' ==> st.colon)
    ensures ReadObject(s, st) == ReadObject(s, Commit(st, v, next, s[st.idx] == '"'))
  {
  }

  lemma {:induction false} ArrayGapStep(s: string, st: ArrayState, gap: string)
    requires st.open && Gap(gap) && At(s, st.idx, gap)
    ensures ReadArray(s, st) == ReadArray(s, st.(idx := st.idx + |gap|, allow := st.allow || ',' in gap))
    decreases |gap|
  {
    if gap != "" {
      var c, rest := gap[0], gap[1..];
      assert gap == [c] + rest;
      AtCons(s, st.idx, c, rest);
      ArrayGapStep(s, st.(idx := st.idx + 1, allow := st.allow || c == ','), rest);
    }
  }

  lemma ItemStep(s: string, st: ArrayState, v: Value, next: nat)
    requires st.open && st.allow && st.idx < |s| && ReadValue(s, st.idx) == Taken(v, next)
    ensures ReadArray(s, st) == ReadArray(s, st.(idx := next, allow := false, items := st.items + [v]))
  {
  }
}
