/** Whatever is read has a derivation, and the tree built is the one that it denotes. */
module JsonDerives {
  import opened Texts
  import opened JsonStrings
  import opened JsonNumbers
  import opened JsonReader
  import opened JsonGrammar

  /** A key that is stored again is kept, and can never be let go: the object is invalid. */
  lemma {:induction false} RepeatFails(s: string, st: ObjectState)
    requires st.open && st.attr != "" && st.attr in st.members && st.idx <= |s|
    ensures ReadObject(s, st).next == None
    decreases |s| - st.idx
  {
    hide ReadValue, ParseQuoted;
    if st.idx < |s| {
      var c := s[st.idx];
      if Skippable(c) || c == ':' {
        RepeatFails(s, st.(idx := st.idx + 1, colon := st.colon || c == ':'));
      } else if ReadValue(s, st.idx).Taken? {
        var r := ReadValue(s, st.idx);
        RepeatFails(s, Commit(st, r.value, r.next, c == '"'));
      }
    }
  }

  // ------------------------------------------------------------ growing a gap

  function BodyPush(c: char, b: Body): Body {
    match b
    case BodyEnd(gap) => BodyEnd([c] + gap)
    case BodyNext(gap, e, rest) => BodyNext([c] + gap, e, rest)
  }

  lemma BodyPushed(c: char, b: Body, colon: bool, first: bool, keys: set<string>, members: map<string, Value>)
    requires Skippable(c) || c == ','
    requires BodyDerives(b, colon, first || c == ',', keys)
    ensures BodyDerives(BodyPush(c, b), colon, first, keys)
    ensures BodyText(BodyPush(c, b)) == [c] + BodyText(b)
    ensures BodyInto(BodyPush(c, b), members) == BodyInto(b, members)
  {
    hide EntryText, Derives, Decode, Raw;
    match b
    case BodyEnd(gap) =>
      assert ([c] + gap) + ['}'] == [c] + (gap + ['}']);
    case BodyNext(gap, e, rest) =>
      var t := EntryText(e) + BodyText(rest);
      assert ([c] + gap) + t == [c] + (gap + t);
      assert c in [c] + gap;
  }

  function ElemsPush(c: char, e: Elems): Elems {
    match e
    case ElemsEnd(gap) => ElemsEnd([c] + gap)
    case ElemsNext(gap, v, rest) => ElemsNext([c] + gap, v, rest)
  }

  lemma ElemsPushed(c: char, e: Elems, first: bool, items: seq<Value>)
    requires Skippable(c) || c == ','
    requires ElemsDerives(e, first || c == ',')
    ensures ElemsDerives(ElemsPush(c, e), first)
    ensures ElemsText(ElemsPush(c, e)) == [c] + ElemsText(e)
    ensures ElemsInto(ElemsPush(c, e), items) == ElemsInto(e, items)
  {
    hide Text, Derives;
    match e
    case ElemsEnd(gap) =>
      assert ([c] + gap) + [']'] == [c] + (gap + [']']);
    case ElemsNext(gap, v, rest) =>
      var t := Text(v) + ElemsText(rest);
      assert ([c] + gap) + t == [c] + (gap + t);
      assert c in [c] + gap;
  }

  // ------------------------------------------------------- what the loops accept

  /** The derivation of what the object loop still reads from an idle state. */
  ghost predicate BodyFor(s: string, st: ObjectState, b: Body) {
    && BodyDerives(b, st.colon, st.allow, st.members.Keys)
    && At(s, st.idx, BodyText(b))
    && ReadObject(s, st) == Read(Some(st.idx + |BodyText(b)|), BodyInto(b, st.members))
  }

  /** The rest of an entry whose key is already read. */
  datatype Tail = Tail(sep: string, value: Cst, rest: Body)

  function TailText(t: Tail): string {
    t.sep + (Text(t.value) + BodyText(t.rest))
  }

  ghost predicate TailFor(s: string, st: ObjectState, t: Tail) {
    var colon := st.colon || ':' in t.sep;
    && st.attr !in st.members
    && Separator(t.sep) && Derives(t.value) && (t.value.CString? ==> colon)
    && BodyDerives(t.rest, !t.value.CString? && colon, false, st.members.Keys + {st.attr})
    && At(s, st.idx, TailText(t))
    && ReadObject(s, st) == Read(Some(st.idx + |TailText(t)|), BodyInto(t.rest, st.members[st.attr := Denote(t.value)]))
  }

  lemma {:induction false} BodyFound(s: string, st: ObjectState) returns (b: Body)
    requires st.open && st.attr == "" && st.idx <= |s| && ReadObject(s, st).next.Some?
    ensures BodyFor(s, st, b)
    decreases |s| - st.idx, 1, 0
  {
    hide ReadObject, BodyFor;
    BodyHead(s, st);
    var c := s[st.idx];
    if Skippable(c) || c == ',' {
      var next := st.(idx := st.idx + 1, allow := st.allow || c == ',');
      var rest := BodyFound(s, next);
      b := BodyPush(c, rest);
      BodyPushedFor(s, st, next, c, rest);
    } else if c == '"' {
      b := EntryFound(s, st);
    } else {
      b := BodyEnd("");
      BodyEndFor(s, st);
    }
  }

  /** What the loop meets in an idle state when it is to succeed. */
  lemma BodyHead(s: string, st: ObjectState)
    requires st.open && st.attr == "" && st.idx <= |s| && ReadObject(s, st).next.Some?
    ensures st.idx < |s|
    ensures var c := s[st.idx];
            if Skippable(c) || c == ',' then
              ReadObject(s, st) == ReadObject(s, st.(idx := st.idx + 1, allow := st.allow || c == ','))
            else if c == '"' then
              st.allow && ParseQuoted(s, st.idx).Some? &&
              var q := ParseQuoted(s, st.idx).value;
              ReadObject(s, st) == ReadObject(s, st.(idx := q.next, attr := q.text, allow := false))
            else c == '}'
  {
    hide ReadValue, ParseQuoted;
  }

  lemma BodyEndFor(s: string, st: ObjectState)
    requires st.open && st.attr == "" && st.idx < |s| && s[st.idx] == '}'
    ensures BodyFor(s, st, BodyEnd(""))
  {
    AtChar(s, st.idx, '}');
    assert "" + ['}'] == ['}'];
  }

  lemma BodyPushedFor(s: string, st: ObjectState, next: ObjectState, c: char, rest: Body)
    requires st.idx < |s| && c == s[st.idx] && (Skippable(c) || c == ',')
    requires next == st.(idx := st.idx + 1, allow := st.allow || c == ',')
    requires ReadObject(s, st) == ReadObject(s, next) && BodyFor(s, next, rest)
    ensures BodyFor(s, st, BodyPush(c, rest))
  {
    hide ReadObject, BodyText, BodyDerives, BodyInto;
    BodyPushed(c, rest, st.colon, st.allow, st.members.Keys, st.members);
    AtCons(s, st.idx, c, BodyText(rest));
  }

  lemma {:induction false} EntryFound(s: string, st: ObjectState) returns (b: Body)
    requires st.open && st.attr == "" && st.idx < |s| && s[st.idx] == '"' && ReadObject(s, st).next.Some?
    ensures BodyFor(s, st, b)
    decreases |s| - st.idx, 0, 0
  {
    hide ReadObject, BodyFor, TailFor, ParseQuoted, Decode, Raw;
    BodyHead(s, st);
    var raw := QuotedOnly(s, st.idx);
    var key := st.(idx := st.idx + |raw| + 2, attr := Decode(raw), allow := false);
    if Decode(raw) == "" {
      var rest := BodyFound(s, key);
      b := BodyNext("", Alone(raw), rest);
      AloneFor(s, st, raw, rest);
    } else {
      var t := TailFound(s, key);
      b := BodyNext("", Member(raw, t.sep, t.value), t.rest);
      MemberFor(s, st, raw, t);
    }
  }

  lemma AloneFor(s: string, st: ObjectState, raw: string, rest: Body)
    requires st.attr == "" && st.allow && Raw(raw) && Decode(raw) == "" && At(s, st.idx, Quote(raw))
    requires var key := st.(idx := st.idx + |raw| + 2, attr := "", allow := false);
             ReadObject(s, st) == ReadObject(s, key) && BodyFor(s, key, rest)
    ensures BodyFor(s, st, BodyNext("", Alone(raw), rest))
  {
    hide ReadObject, Decode, Raw, At;
    var b := BodyNext("", Alone(raw), rest);
    assert BodyText(b) == Quote(raw) + BodyText(rest);
    AtSplit(s, st.idx, Quote(raw), BodyText(rest));
  }

  lemma MemberFor(s: string, st: ObjectState, raw: string, t: Tail)
    requires st.attr == "" && st.allow && Raw(raw) && Decode(raw) != "" && At(s, st.idx, Quote(raw))
    requires var key := st.(idx := st.idx + |raw| + 2, attr := Decode(raw), allow := false);
             ReadObject(s, st) == ReadObject(s, key) && TailFor(s, key, t)
    ensures BodyFor(s, st, BodyNext("", Member(raw, t.sep, t.value), t.rest))
  {
    hide ReadObject, Decode, Raw, At, Text, Denote, Derives;
    MemberText(raw, t);
    AtSplit(s, st.idx, Quote(raw), TailText(t));
  }

  lemma MemberText(raw: string, t: Tail)
    ensures BodyText(BodyNext("", Member(raw, t.sep, t.value), t.rest)) == Quote(raw) + TailText(t)
  {
    var q, v, r := Quote(raw), Text(t.value), BodyText(t.rest);
    assert "" + ((q + (t.sep + v)) + r) == q + (t.sep + (v + r));
  }

  lemma {:induction false} TailFound(s: string, st: ObjectState) returns (t: Tail)
    requires st.open && st.attr != "" && !st.allow && st.idx <= |s| && ReadObject(s, st).next.Some?
    ensures TailFor(s, st, t)
    decreases |s| - st.idx, 1, 0
  {
    hide ReadObject, ReadValue, BodyFor, TailFor, At, Text, Derives, Denote;
    TailHead(s, st);
    var c := s[st.idx];
    if Skippable(c) || c == ':' {
      var next := st.(idx := st.idx + 1, colon := st.colon || c == ':');
      var u := TailFound(s, next);
      t := u.(sep := [c] + u.sep);
      TailPushedFor(s, st, next, c, u);
    } else {
      var v := ValueFound(s, st.idx);
      var rest := BodyFound(s, Commit(st, Denote(v), st.idx + |Text(v)|, c == '"'));
      t := Tail("", v, rest);
      TailEndFor(s, st, v, rest);
    }
  }

  /** What the loop meets behind a key when it is to succeed. */
  lemma TailHead(s: string, st: ObjectState)
    requires st.open && st.attr != "" && st.idx <= |s| && ReadObject(s, st).next.Some?
    ensures st.idx < |s| && st.attr !in st.members
    ensures var c := s[st.idx];
            if Skippable(c) || c == ':' then
              ReadObject(s, st) == ReadObject(s, st.(idx := st.idx + 1, colon := st.colon || c == ':'))
            else
              var r := ReadValue(s, st.idx);
              r.Taken? && (c == '"' ==> st.colon) && ReadObject(s, st) == ReadObject(s, Commit(st, r.value, r.next, c == '"'))
  {
    hide ReadValue, ParseQuoted;
    if st.attr in st.members {
      RepeatFails(s, st);
    }
  }

  lemma TailPushedFor(s: string, st: ObjectState, next: ObjectState, c: char, u: Tail)
    requires st.idx < |s| && c == s[st.idx] && (Skippable(c) || c == ':')
    requires next == st.(idx := st.idx + 1, colon := st.colon || c == ':')
    requires ReadObject(s, st) == ReadObject(s, next) && TailFor(s, next, u)
    ensures TailFor(s, st, u.(sep := [c] + u.sep))
  {
    hide ReadObject, BodyText, BodyDerives, BodyInto, Text, Denote, Derives;
    var t := u.(sep := [c] + u.sep);
    var r := Text(u.value) + BodyText(u.rest);
    assert ([c] + u.sep) + r == [c] + (u.sep + r);
    AtCons(s, st.idx, c, TailText(u));
    assert ':' in t.sep <==> c == ':' || ':' in u.sep;
  }

  lemma TailEndFor(s: string, st: ObjectState, v: Cst, rest: Body)
    requires st.idx < |s| && st.attr != "" && st.attr !in st.members && !st.allow
    requires Derives(v) && At(s, st.idx, Text(v)) && (s[st.idx] == '"' <==> v.CString?) && (v.CString? ==> st.colon)
    requires var after := Commit(st, Denote(v), st.idx + |Text(v)|, v.CString?);
             ReadObject(s, st) == ReadObject(s, after) && BodyFor(s, after, rest)
    ensures TailFor(s, st, Tail("", v, rest))
  {
    hide ReadObject, BodyText, BodyInto, BodyDerives, Text, Denote, Derives, At;
    var t := Tail("", v, rest);
    assert TailText(t) == Text(v) + BodyText(rest);
    AtSplit(s, st.idx, Text(v), BodyText(rest));
    var members := st.members[st.attr := Denote(v)];
    assert members.Keys == st.members.Keys + {st.attr};
  }

  // -------------------------------------------------------------------- values

  lemma {:induction false} ValueFound(s: string, i: nat) returns (v: Cst)
    requires i < |s| && ReadValue(s, i).Taken?
    ensures Derives(v) && At(s, i, Text(v)) && ReadValue(s, i) == Taken(Denote(v), i + |Text(v)|)
    ensures s[i] == '"' <==> v.CString?
    decreases |s| - i, 0, 1
  {
    var c := s[i];
    if c == '{' {
      var st := ObjectStart(i, map[]).(idx := i + 1, open := true);
      assert ReadObject(s, ObjectStart(i, map[])) == ReadObject(s, st);
      var b := BodyFound(s, st);
      v := CObject(b);
      ObjectFound(s, i, b);
    } else if c == '[' {
      var st := ArrayStart(i, []).(idx := i + 1, open := true);
      assert ReadArray(s, ArrayStart(i, [])) == ReadArray(s, st);
      var e := ElemsFound(s, st);
      v := CArray(e);
      AtCons(s, i, '[', ElemsText(e));
    } else {
      v := LeafFound(s, i);
    }
  }

  lemma ObjectFound(s: string, i: nat, b: Body)
    requires i < |s| && s[i] == '{'
    requires BodyFor(s, ObjectStart(i, map[]).(idx := i + 1, open := true), b)
    ensures Derives(CObject(b)) && At(s, i, Text(CObject(b)))
    ensures ReadValue(s, i) == Taken(Denote(CObject(b)), i + |Text(CObject(b))|)
  {
    hide BodyText, BodyDerives, BodyInto;
    var m: map<string, Value> := map[];
    assert m.Keys == {};
    var st := ObjectStart(i, map[]);
    assert ReadObject(s, st) == ReadObject(s, st.(idx := i + 1, open := true));
    AtCons(s, i, '{', BodyText(b));
  }

  lemma LeafFound(s: string, i: nat) returns (v: Cst)
    requires i < |s| && s[i] != '{' && s[i] != '[' && ReadValue(s, i).Taken?
    ensures Derives(v) && At(s, i, Text(v)) && ReadValue(s, i) == Taken(Denote(v), i + |Text(v)|)
    ensures s[i] == '"' <==> v.CString?
  {
    hide Decode, Raw, Stod, ParseNumber, ParseQuoted;
    var c := s[i];
    if c == '"' {
      var raw := QuotedOnly(s, i);
      v := CString(raw);
    } else if Digit(c) {
      v := NumberFound(s, i);
    } else if c == 't' {
      AtSlice(s, i, "true");
      v := CTrue;
    } else if c == 'f' {
      v := FalseFound(s, i);
    } else {
      v := NullFound(s, i);
    }
  }

  lemma NumberFound(s: string, i: nat) returns (v: Cst)
    requires i < |s| && Digit(s[i]) && ReadValue(s, i).Taken?
    ensures v.CNumber? && Derives(v) && At(s, i, Text(v)) && ReadValue(s, i) == Taken(Denote(v), i + |Text(v)|)
  {
    hide Stod;
    assert SkipBlanks(s, i) == i;
    NumericEndIs(s, i);
    var digits := s[i..NumericEnd(s, i)];
    assert digits[0] == s[i];
    AtSlice(s, i, digits);
    v := CNumber(digits);
  }

  lemma FalseFound(s: string, i: nat) returns (v: Cst)
    requires i < |s| && s[i] == 'f' && ReadValue(s, i).Taken?
    ensures v.CFalse? && Derives(v) && At(s, i, Text(v)) && ReadValue(s, i) == Taken(Denote(v), i + |Text(v)|)
  {
    var junk := s[i + 1..i + 5];
    AtSlice(s, i + 1, junk);
    AtCons(s, i, 'f', junk);
    v := CFalse(junk);
  }

  lemma NullFound(s: string, i: nat) returns (v: Cst)
    requires i < |s| && s[i] == 'n' && ReadValue(s, i).Taken?
    ensures v.CNull? && Derives(v) && At(s, i, Text(v)) && ReadValue(s, i) == Taken(Denote(v), i + |Text(v)|)
  {
    var junk := s[i + 1..i + 4];
    AtSlice(s, i + 1, junk);
    AtCons(s, i, 'n', junk);
    v := CNull(junk);
  }

  // -------------------------------------------------------------------- arrays

  ghost predicate ElemsFor(s: string, st: ArrayState, e: Elems) {
    && ElemsDerives(e, st.allow)
    && At(s, st.idx, ElemsText(e))
    && ReadArray(s, st) == Read(Some(st.idx + |ElemsText(e)|), ElemsInto(e, st.items))
  }

  lemma {:induction false} ElemsFound(s: string, st: ArrayState) returns (e: Elems)
    requires st.open && st.idx <= |s| && ReadArray(s, st).next.Some?
    ensures ElemsFor(s, st, e)
    decreases |s| - st.idx, 1, 0
  {
    hide ReadArray, ReadValue, ElemsFor, At, Text, Derives, Denote;
    ElemsHead(s, st);
    var c := s[st.idx];
    if Skippable(c) || c == ',' {
      var next := st.(idx := st.idx + 1, allow := st.allow || c == ',');
      var rest := ElemsFound(s, next);
      e := ElemsPush(c, rest);
      ElemsPushedFor(s, st, next, c, rest);
    } else if c == ']' {
      e := ElemsEnd("");
      ElemsEndFor(s, st);
    } else {
      var v := ValueFound(s, st.idx);
      var rest := ElemsFound(s, st.(idx := st.idx + |Text(v)|, allow := false, items := st.items + [Denote(v)]));
      e := ElemsNext("", v, rest);
      ItemFor(s, st, v, rest);
    }
  }

  /** What the array loop meets when it is to succeed. */
  lemma ElemsHead(s: string, st: ArrayState)
    requires st.open && st.idx <= |s| && ReadArray(s, st).next.Some?
    ensures st.idx < |s|
    ensures var c := s[st.idx];
            if Skippable(c) || c == ',' then
              ReadArray(s, st) == ReadArray(s, st.(idx := st.idx + 1, allow := st.allow || c == ','))
            else if c == ']' then true
            else
              var r := ReadValue(s, st.idx);
              st.allow && r.Taken? &&
              ReadArray(s, st) == ReadArray(s, st.(idx := r.next, allow := false, items := st.items + [r.value]))
  {
    hide ReadValue;
  }

  lemma ElemsEndFor(s: string, st: ArrayState)
    requires st.open && st.idx < |s| && s[st.idx] == ']'
    ensures ElemsFor(s, st, ElemsEnd(""))
  {
    AtChar(s, st.idx, ']');
    assert "" + [']'] == [']'];
  }

  lemma ElemsPushedFor(s: string, st: ArrayState, next: ArrayState, c: char, rest: Elems)
    requires st.idx < |s| && c == s[st.idx] && (Skippable(c) || c == ',')
    requires next == st.(idx := st.idx + 1, allow := st.allow || c == ',')
    requires ReadArray(s, st) == ReadArray(s, next) && ElemsFor(s, next, rest)
    ensures ElemsFor(s, st, ElemsPush(c, rest))
  {
    hide ReadArray, ElemsText, ElemsDerives, ElemsInto;
    ElemsPushed(c, rest, st.allow, st.items);
    AtCons(s, st.idx, c, ElemsText(rest));
  }

  lemma ItemFor(s: string, st: ArrayState, v: Cst, rest: Elems)
    requires st.allow && Derives(v) && At(s, st.idx, Text(v))
    requires var after := st.(idx := st.idx + |Text(v)|, allow := false, items := st.items + [Denote(v)]);
             ReadArray(s, st) == ReadArray(s, after) && ElemsFor(s, after, rest)
    ensures ElemsFor(s, st, ElemsNext("", v, rest))
  {
    hide ReadArray, Text, Denote, Derives, At;
    assert ElemsText(ElemsNext("", v, rest)) == Text(v) + ElemsText(rest);
    AtSplit(s, st.idx, Text(v), ElemsText(rest));
  }
}
