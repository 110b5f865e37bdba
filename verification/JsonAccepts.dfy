/** Every derivation is read, as the tree that it denotes. */
module JsonAccepts {
  import opened Texts
  import opened JsonStrings
  import opened JsonNumbers
  import opened JsonReader
  import opened JsonGrammar

  /** What follows a value inside a container cannot be taken for a part of it. */
  predicate Bounded(s: string, j: nat) {
    j < |s| && !Numeric(s[j])
  }

  lemma BodyStart(s: string, i: nat, b: Body, colon: bool, keys: set<string>)
    requires BodyDerives(b, colon, false, keys) && At(s, i, BodyText(b))
    ensures Bounded(s, i)
  {
    match b
    case BodyEnd(gap) => GapStart(s, i, gap, ['}']);
    case BodyNext(gap, e, rest) => GapStart(s, i, gap, EntryText(e) + BodyText(rest));
  }

  lemma ElemsStart(s: string, i: nat, e: Elems)
    requires ElemsDerives(e, false) && At(s, i, ElemsText(e))
    ensures Bounded(s, i)
  {
    match e
    case ElemsEnd(gap) => GapStart(s, i, gap, [']']);
    case ElemsNext(gap, v, rest) => GapStart(s, i, gap, Text(v) + ElemsText(rest));
  }

  lemma GapStart(s: string, i: nat, gap: string, rest: string)
    requires Gap(gap) && At(s, i, gap + rest)
    requires gap != "" || (rest != "" && !Numeric(rest[0]))
    ensures Bounded(s, i)
  {
    assert s[i..][0] == (gap + rest)[0] == s[i];
    if gap != "" {
      assert gap[0] in gap;
    }
  }

  lemma LeafAccepts(s: string, i: nat, v: Cst)
    requires Derives(v) && !v.CObject? && !v.CArray?
    requires At(s, i, Text(v)) && Bounded(s, i + |Text(v)|)
    ensures i < |s| && ReadValue(s, i) == Taken(Denote(v), i + |Text(v)|)
  {
    hide Decode, Stod, ParseQuoted, ParseNumber, Raw, AllNumeric;
    match v
    case CString(raw) =>
      QuoteAt(s, i, raw);
    case CNumber(digits) =>
      NumberAccepts(s, i, digits);
    case CTrue =>
      TrueAccepts(s, i);
    case CFalse(junk) =>
      AtCons(s, i, 'f', junk);
    case CNull(junk) =>
      AtCons(s, i, 'n', junk);
  }

  lemma TrueAccepts(s: string, i: nat)
    requires At(s, i, "true")
    ensures i < |s| && ReadValue(s, i) == Taken(Bool(true), i + 4)
  {
    AtSlice(s, i, "true");
    assert s[i] == s[i..i + 4][0];
  }

  lemma NumberAccepts(s: string, i: nat, digits: string)
    requires |digits| > 0 && Digit(digits[0]) && AllNumeric(digits)
    requires At(s, i, digits) && Bounded(s, i + |digits|)
    ensures i < |s| && Digit(s[i]) && Stod(digits).Some?
    ensures ParseNumber(s, i) == Number(Stod(digits).value, i + |digits|)
  {
    hide Stod, NumericEnd, AllNumeric;
    AtSlice(s, i, digits);
    assert s[i] == s[i..][0] == digits[0];
    DigitConverts(digits);
    NumericEndAt(s, i, i + |digits|);
  }

  lemma {:induction false} ValueAccepts(s: string, i: nat, v: Cst)
    requires Derives(v) && At(s, i, Text(v)) && Bounded(s, i + |Text(v)|)
    ensures i < |s| && ReadValue(s, i) == Taken(Denote(v), i + |Text(v)|)
    decreases v
  {
    match v
    case CObject(b) =>
      AtCons(s, i, '{', BodyText(b));
      var st := ObjectStart(i, map[]);
      assert ReadObject(s, st) == ReadObject(s, st.(idx := i + 1, open := true));
      assert st.members.Keys == {};
      BodyAccepts(s, st.(idx := i + 1, open := true), b);
    case CArray(e) =>
      AtCons(s, i, '[', ElemsText(e));
      var st := ArrayStart(i, []);
      assert ReadArray(s, st) == ReadArray(s, st.(idx := i + 1, open := true));
      ElemsAccept(s, st.(idx := i + 1, open := true), e);
    case _ =>
      LeafAccepts(s, i, v);
  }

  lemma {:induction false} BodyAccepts(s: string, st: ObjectState, b: Body)
    requires st.open && st.attr == "" && At(s, st.idx, BodyText(b))
    requires BodyDerives(b, st.colon, st.allow, st.members.Keys)
    ensures ReadObject(s, st) == Read(Some(st.idx + |BodyText(b)|), BodyInto(b, st.members))
    decreases b
  {
    hide ReadObject, ReadValue, Denote, Text, At, Quote, Gap, EntryText, Raw, Decode, Derives, Separator;
    match b
    case BodyEnd(gap) =>
      AtSplit(s, st.idx, gap, ['}']);
      GapStep(s, st, gap);
      BodyEndAccepts(s, st.(idx := st.idx + |gap|, allow := st.allow || ',' in gap));
    case BodyNext(gap, Alone(raw), rest) =>
      var at := EntryReached(s, st, gap, Alone(raw), rest);
      AloneSteps(s, at, raw);
      BodyAccepts(s, at.(idx := at.idx + |raw| + 2, attr := "", allow := false), rest);
    case BodyNext(gap, Member(raw, sep, v), rest) =>
      var at := EntryReached(s, st, gap, Member(raw, sep, v), rest);
      var after := ValueEntered(KeyEntered(at, raw), sep, v);
      MemberParts(s, at, raw, sep, v, rest);
      ValueAccepts(s, at.idx + |raw| + 2 + |sep|, v);
      MemberSteps(s, at, raw, sep, v);
      BodyAccepts(s, after, rest);
  }

  /** The loop arrives at an entry. */
  lemma EntryReached(s: string, st: ObjectState, gap: string, e: Entry, rest: Body) returns (at: ObjectState)
    requires st.open && st.attr == "" && Gap(gap) && (st.allow || ',' in gap)
    requires At(s, st.idx, BodyText(BodyNext(gap, e, rest)))
    ensures at == st.(idx := st.idx + |gap|, allow := true)
    ensures ReadObject(s, st) == ReadObject(s, at)
    ensures At(s, at.idx, EntryText(e)) && At(s, at.idx + |EntryText(e)|, BodyText(rest))
  {
    hide ReadObject, At, EntryText, Gap;
    AtSplit(s, st.idx, gap, EntryText(e) + BodyText(rest));
    AtSplit(s, st.idx + |gap|, EntryText(e), BodyText(rest));
    GapStep(s, st, gap);
    at := st.(idx := st.idx + |gap|, allow := st.allow || ',' in gap);
  }

  lemma AloneSteps(s: string, st: ObjectState, raw: string)
    requires st.open && st.attr == "" && st.allow && Raw(raw) && Decode(raw) == "" && At(s, st.idx, EntryText(Alone(raw)))
    ensures ReadObject(s, st) == ReadObject(s, st.(idx := st.idx + |raw| + 2, attr := "", allow := false))
    ensures |EntryText(Alone(raw))| == |raw| + 2
  {
    hide ReadObject, Raw, Decode, At;
    KeyStep(s, st, raw);
    QuoteAt(s, st.idx, raw);
  }

  lemma MemberParts(s: string, st: ObjectState, raw: string, sep: string, v: Cst, rest: Body)
    requires var e := EntryText(Member(raw, sep, v)); At(s, st.idx, e) && At(s, st.idx + |e|, BodyText(rest))
    requires BodyDerives(rest, !v.CString? && (st.colon || ':' in sep), false, st.members.Keys + {Decode(raw)})
    ensures At(s, st.idx, Quote(raw)) && At(s, st.idx + |raw| + 2, sep)
    ensures At(s, st.idx + |raw| + 2 + |sep|, Text(v)) && Bounded(s, st.idx + |raw| + 2 + |sep| + |Text(v)|)
    ensures var after := ValueEntered(KeyEntered(st, raw), sep, v);
            after.members.Keys == st.members.Keys + {Decode(raw)} && At(s, after.idx, BodyText(rest))
            && |BodyText(rest)| + after.idx == st.idx + |EntryText(Member(raw, sep, v))| + |BodyText(rest)|
  {
    hide At, Text, Decode, Denote, BodyText;
    AtSplit(s, st.idx, Quote(raw), sep + Text(v));
    AtSplit(s, st.idx + |raw| + 2, sep, Text(v));
    var after := ValueEntered(KeyEntered(st, raw), sep, v);
    BodyStart(s, after.idx, rest, after.colon, st.members.Keys + {Decode(raw)});
  }

  /** The loop variables behind a key. */
  function KeyEntered(st: ObjectState, raw: string): ObjectState {
    st.(idx := st.idx + |raw| + 2, attr := Decode(raw), allow := false)
  }

  /** The loop variables behind the value of a new key. */
  function ValueEntered(key: ObjectState, sep: string, v: Cst): ObjectState {
    ObjectState(key.idx + |sep| + |Text(v)|, key.open, !v.CString? && (key.colon || ':' in sep), key.allow, "",
                key.members[key.attr := Denote(v)])
  }

  lemma MemberSteps(s: string, st: ObjectState, raw: string, sep: string, v: Cst)
    requires st.open && st.attr == "" && st.allow && Raw(raw) && Decode(raw) != "" && Decode(raw) !in st.members
    requires Separator(sep) && (v.CString? ==> st.colon || ':' in sep)
    requires At(s, st.idx, Quote(raw)) && At(s, st.idx + |raw| + 2, sep)
    requires var j := st.idx + |raw| + 2 + |sep|;
             At(s, j, Text(v)) && j < |s| && ReadValue(s, j) == Taken(Denote(v), j + |Text(v)|) && Derives(v)
    ensures ReadObject(s, st) == ReadObject(s, ValueEntered(KeyEntered(st, raw), sep, v))
  {
    hide ReadObject, ReadValue, Denote, Decode, Raw, Text, Quote, At, Derives, Separator;
    KeyStep(s, st, raw);
    ValueSteps(s, KeyEntered(st, raw), sep, v);
  }

  lemma ValueSteps(s: string, key: ObjectState, sep: string, v: Cst)
    requires key.open && key.attr != "" && key.attr !in key.members
    requires Separator(sep) && (v.CString? ==> key.colon || ':' in sep)
    requires var j := key.idx + |sep|;
             At(s, j, Text(v)) && j < |s| && ReadValue(s, j) == Taken(Denote(v), j + |Text(v)|) && Derives(v)
    requires At(s, key.idx, sep)
    ensures ReadObject(s, key) == ReadObject(s, ValueEntered(key, sep, v))
  {
    hide ReadObject, ReadValue, Denote, Text, At, Derives, Separator;
    var j := key.idx + |sep|;
    SeparatorStep(s, key, sep);
    ValueStarts(s, j, v);
    ValueStep(s, key.(idx := j, colon := key.colon || ':' in sep), Denote(v), j + |Text(v)|);
  }

  /** Of the values, exactly the strings start with a quote. */
  lemma ValueStarts(s: string, j: nat, v: Cst)
    requires Derives(v) && At(s, j, Text(v))
    ensures j < |s| && (s[j] == '"' <==> v.CString?)
  {
    var t := Text(v);
    assert |t| > 0;
    assert s[j] == s[j..][0] == t[0];
  }

  lemma BodyEndAccepts(s: string, st: ObjectState)
    requires st.open && st.attr == "" && At(s, st.idx, ['}'])
    ensures ReadObject(s, st) == Read(Some(st.idx + 1), st.members)
  {
    AtChar(s, st.idx, '}');
  }

  lemma {:induction false} ElemsAccept(s: string, st: ArrayState, e: Elems)
    requires st.open && At(s, st.idx, ElemsText(e)) && ElemsDerives(e, st.allow)
    ensures ReadArray(s, st) == Read(Some(st.idx + |ElemsText(e)|), ElemsInto(e, st.items))
    decreases e
  {
    hide ReadArray, ReadValue, Denote, Text, At, Gap;
    match e
    case ElemsEnd(gap) =>
      AtSplit(s, st.idx, gap, [']']);
      ArrayGapStep(s, st, gap);
      ElemsEndAccepts(s, st.(idx := st.idx + |gap|, allow := st.allow || ',' in gap));
    case ElemsNext(gap, v, rest) =>
      var at := ItemReached(s, st, gap, v, rest);
      var j := at.idx + |Text(v)|;
      ElemsStart(s, j, rest);
      ValueAccepts(s, at.idx, v);
      ItemStep(s, at, Denote(v), j);
      ElemsAccept(s, ArrayState(j, true, false, st.items + [Denote(v)]), rest);
  }

  /** The loop arrives at an element. */
  lemma ItemReached(s: string, st: ArrayState, gap: string, v: Cst, rest: Elems) returns (at: ArrayState)
    requires st.open && Gap(gap) && (st.allow || ',' in gap)
    requires At(s, st.idx, ElemsText(ElemsNext(gap, v, rest)))
    ensures at == st.(idx := st.idx + |gap|, allow := true)
    ensures ReadArray(s, st) == ReadArray(s, at)
    ensures At(s, at.idx, Text(v)) && At(s, at.idx + |Text(v)|, ElemsText(rest))
  {
    hide ReadArray, At, Text, Gap;
    AtSplit(s, st.idx, gap, Text(v) + ElemsText(rest));
    AtSplit(s, st.idx + |gap|, Text(v), ElemsText(rest));
    ArrayGapStep(s, st, gap);
    at := st.(idx := st.idx + |gap|, allow := st.allow || ',' in gap);
  }

  lemma ElemsEndAccepts(s: string, st: ArrayState)
    requires st.open && At(s, st.idx, [']'])
    ensures ReadArray(s, st) == Read(Some(st.idx + 1), st.items)
  {
    AtChar(s, st.idx, ']');
  }
}
