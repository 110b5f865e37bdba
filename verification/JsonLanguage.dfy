/** The language of the reader: the loops with flags accept exactly what the grammar derives. */
module JsonLanguage {
  import opened Texts
  import opened JsonStrings
  import opened JsonReader
  import opened JsonGrammar
  import opened JsonAccepts
  import opened JsonDerives

  /** `s[b..r]` is a lead of blanks and a derived object with members `m`. */
  ghost predicate DerivedObject(s: string, b: nat, r: nat, m: map<string, Value>) {
    exists lead, body :: ObjectDerivation(s, b, r, m, lead, body)
  }

  ghost predicate ObjectDerivation(s: string, b: nat, r: nat, m: map<string, Value>, lead: string, body: Body) {
    && Blank(lead) && Derives(CObject(body)) && Denote(CObject(body)) == Obj(m)
    && At(s, b, lead + Text(CObject(body))) && r == b + |lead| + |Text(CObject(body))|
  }

  /** `s[b..r]` is a lead of blanks and a derived array, or a lead and a closing bracket alone. */
  ghost predicate DerivedArray(s: string, b: nat, r: nat, items: seq<Value>) {
    || (exists lead, elems :: ArrayDerivation(s, b, r, items, lead, elems))
    || (exists lead :: ClosingAlone(s, b, r, items, lead))
  }

  ghost predicate ArrayDerivation(s: string, b: nat, r: nat, items: seq<Value>, lead: string, elems: Elems) {
    && Blank(lead) && Derives(CArray(elems)) && Denote(CArray(elems)) == Arr(items)
    && At(s, b, lead + Text(CArray(elems))) && r == b + |lead| + |Text(CArray(elems))|
  }

  ghost predicate ClosingAlone(s: string, b: nat, r: nat, items: seq<Value>, lead: string) {
    Blank(lead) && items == [] && At(s, b, lead + [']']) && r == b + |lead| + 1
  }

  // ------------------------------------------------------------------- the lead

  /** The first character from `i` on that is not skipped. */
  function LeadEnd(s: string, i: nat): (j: nat)
    requires i <= |s|
    ensures i <= j <= |s| && (j < |s| ==> !Skippable(s[j])) && Blank(s[i..j])
    decreases |s| - i
  {
    if i < |s| && Skippable(s[i]) then
      var j := LeadEnd(s, i + 1);
      assert s[i..j] == [s[i]] + s[i + 1..j];
      j
    else i
  }

  lemma LeadEndAt(s: string, i: nat, lead: string)
    requires Blank(lead) && At(s, i, lead) && i + |lead| < |s| && !Skippable(s[i + |lead|])
    ensures LeadEnd(s, i) == i + |lead|
    decreases |lead|
  {
    if lead != "" {
      var c, rest := lead[0], lead[1..];
      assert lead == [c] + rest;
      AtCons(s, i, c, rest);
      LeadEndAt(s, i + 1, rest);
    }
  }

  lemma {:induction false} ObjectLead(s: string, i: nat, m: map<string, Value>)
    requires i <= |s|
    ensures var j := LeadEnd(s, i);
            ReadObject(s, ObjectStart(i, m)) ==
            if j < |s| && s[j] == '{' then ReadObject(s, ObjectStart(j + 1, m).(open := true)) else Read(None, m)
    decreases |s| - i
  {
    hide ReadValue, ParseQuoted, Commit;
    if i < |s| && Skippable(s[i]) {
      ObjectLead(s, i + 1, m);
    }
  }

  lemma {:induction false} ArrayLead(s: string, i: nat, items: seq<Value>)
    requires i <= |s|
    ensures var j := LeadEnd(s, i);
            ReadArray(s, ArrayStart(i, items)) ==
            if j < |s| && s[j] == '[' then ReadArray(s, ArrayStart(j + 1, items).(open := true))
            else if j < |s| && s[j] == ']' then Read(Some(j + 1), items)
            else Read(None, items)
    decreases |s| - i
  {
    hide ReadValue, ParseQuoted, Commit;
    if i < |s| && Skippable(s[i]) {
      ArrayLead(s, i + 1, items);
    }
  }

  // -------------------------------------------------------- grammar equivalence

  lemma LeadAt(s: string, b: nat, lead: string, c: char, rest: string)
    requires Blank(lead) && !Skippable(c) && At(s, b, lead + ([c] + rest))
    ensures b <= |s| && LeadEnd(s, b) == b + |lead| < |s| && s[b + |lead|] == c && At(s, b + |lead| + 1, rest)
  {
    AtSplit(s, b, lead, [c] + rest);
    AtCons(s, b + |lead|, c, rest);
    LeadEndAt(s, b, lead);
  }

  /** The object reader accepts exactly the derived objects, and builds what the derivation denotes. */
  lemma ObjectLanguage(s: string, b: nat, r: nat, m: map<string, Value>)
    requires b <= |s|
    ensures ParseObject(s, b) == Read(Some(r), m) <==> DerivedObject(s, b, r, m)
  {
    if ParseObject(s, b) == Read(Some(r), m) {
      ObjectHasDerivation(s, b, r, m);
    }
    if DerivedObject(s, b, r, m) {
      var lead, body :| ObjectDerivation(s, b, r, m, lead, body);
      DerivationIsObject(s, b, r, m, lead, body);
    }
  }

  lemma ObjectHasDerivation(s: string, b: nat, r: nat, m: map<string, Value>)
    requires b <= |s| && ParseObject(s, b) == Read(Some(r), m)
    ensures DerivedObject(s, b, r, m)
  {
    hide ReadObject, BodyDerives, BodyText, BodyInto;
    var empty: map<string, Value> := map[];
    assert empty.Keys == {};
    ObjectLead(s, b, empty);
    var j := LeadEnd(s, b);
    var body := BodyFound(s, ObjectStart(j + 1, empty).(open := true));
    var lead := s[b..j];
    AtSlice(s, b, lead);
    AtCons(s, j, '{', BodyText(body));
    AtSplit(s, b, lead, Text(CObject(body)));
    assert ObjectDerivation(s, b, r, m, lead, body);
  }

  lemma DerivationIsObject(s: string, b: nat, r: nat, m: map<string, Value>, lead: string, body: Body)
    requires b <= |s| && ObjectDerivation(s, b, r, m, lead, body)
    ensures ParseObject(s, b) == Read(Some(r), m)
  {
    hide ReadObject, BodyDerives, BodyText, BodyInto;
    var empty: map<string, Value> := map[];
    assert empty.Keys == {};
    LeadAt(s, b, lead, '{', BodyText(body));
    ObjectLead(s, b, empty);
    BodyAccepts(s, ObjectStart(b + |lead| + 1, empty).(open := true), body);
  }

  /** The array reader accepts exactly the derived arrays and a closing bracket alone. */
  lemma ArrayLanguage(s: string, b: nat, r: nat, items: seq<Value>)
    requires b <= |s|
    ensures ParseArray(s, b) == Read(Some(r), items) <==> DerivedArray(s, b, r, items)
  {
    if ParseArray(s, b) == Read(Some(r), items) {
      ArrayHasDerivation(s, b, r, items);
    }
    if lead, elems :| ArrayDerivation(s, b, r, items, lead, elems) {
      DerivationIsArray(s, b, r, items, lead, elems);
    }
    if lead :| ClosingAlone(s, b, r, items, lead) {
      hide ReadArray;
      LeadAt(s, b, lead, ']', "");
      ArrayLead(s, b, []);
    }
  }

  lemma ArrayHasDerivation(s: string, b: nat, r: nat, items: seq<Value>)
    requires b <= |s| && ParseArray(s, b) == Read(Some(r), items)
    ensures DerivedArray(s, b, r, items)
  {
    hide ReadArray, ElemsDerives, ElemsText, ElemsInto;
    ArrayLead(s, b, []);
    var j := LeadEnd(s, b);
    var lead := s[b..j];
    AtSlice(s, b, lead);
    if s[j] == '[' {
      var elems := ElemsFound(s, ArrayStart(j + 1, []).(open := true));
      AtCons(s, j, '[', ElemsText(elems));
      AtSplit(s, b, lead, Text(CArray(elems)));
      assert ArrayDerivation(s, b, r, items, lead, elems);
    } else {
      AtChar(s, j, ']');
      AtSplit(s, b, lead, [']']);
      assert ClosingAlone(s, b, r, items, lead);
    }
  }

  lemma DerivationIsArray(s: string, b: nat, r: nat, items: seq<Value>, lead: string, elems: Elems)
    requires b <= |s| && ArrayDerivation(s, b, r, items, lead, elems)
    ensures ParseArray(s, b) == Read(Some(r), items)
  {
    hide ReadArray, ElemsDerives, ElemsText, ElemsInto;
    LeadAt(s, b, lead, '[', ElemsText(elems));
    ArrayLead(s, b, []);
    ElemsAccept(s, ArrayStart(b + |lead| + 1, []).(open := true), elems);
  }

  // ------------------------------------------------------ locality, prefix-freedom

  lemma AtElsewhere(s: string, t: string, b: nat, r: nat, text: string)
    requires b <= r <= |s| && r <= |t| && s[b..r] == t[b..r] && r == b + |text| && At(s, b, text)
    ensures At(t, b, text)
  {
    AtSlice(s, b, text);
    AtSlice(t, b, text);
  }

  /** What the object reader takes does not depend on what follows it. */
  lemma ObjectLocality(s: string, t: string, b: nat, r: nat, m: map<string, Value>)
    requires b <= |s| && ParseObject(s, b) == Read(Some(r), m)
    requires b <= r <= |t| && r <= |s| && s[b..r] == t[b..r]
    ensures ParseObject(t, b) == Read(Some(r), m)
  {
    hide ParseObject, Text, Derives, Denote;
    ObjectLanguage(s, b, r, m);
    var lead, body :| ObjectDerivation(s, b, r, m, lead, body);
    AtElsewhere(s, t, b, r, lead + Text(CObject(body)));
    assert ObjectDerivation(t, b, r, m, lead, body);
    ObjectLanguage(t, b, r, m);
  }

  /** What the array reader takes does not depend on what follows it. */
  lemma ArrayLocality(s: string, t: string, b: nat, r: nat, items: seq<Value>)
    requires b <= |s| && ParseArray(s, b) == Read(Some(r), items)
    requires b <= r <= |t| && r <= |s| && s[b..r] == t[b..r]
    ensures ParseArray(t, b) == Read(Some(r), items)
  {
    hide ParseArray, Text, Derives, Denote;
    ArrayLanguage(s, b, r, items);
    if lead, elems :| ArrayDerivation(s, b, r, items, lead, elems) {
      AtElsewhere(s, t, b, r, lead + Text(CArray(elems)));
      assert ArrayDerivation(t, b, r, items, lead, elems);
    } else {
      var lead :| ClosingAlone(s, b, r, items, lead);
      AtElsewhere(s, t, b, r, lead + [']']);
      assert ClosingAlone(t, b, r, items, lead);
    }
    ArrayLanguage(t, b, r, items);
  }

  /** No text that is read to its end goes on as another one. */
  lemma PrefixFree(s: string, t: string)
    requires s <= t
    ensures ParseObject(s, 0).next == Some(|s|) && ParseObject(t, 0).next == Some(|t|) ==> s == t
    ensures ParseArray(s, 0).next == Some(|s|) && ParseArray(t, 0).next == Some(|t|) ==> s == t
  {
    assert s[0..|s|] == t[0..|s|];
    if ParseObject(s, 0).next == Some(|s|) {
      ObjectLocality(s, t, 0, |s|, ParseObject(s, 0).contents);
    }
    if ParseArray(s, 0).next == Some(|s|) {
      ArrayLocality(s, t, 0, |s|, ParseArray(s, 0).contents);
    }
  }

  // ------------------------------------------------------------- keys, sizes

  function KeysOf(b: Body): seq<string> {
    match b
    case BodyEnd(_) => []
    case BodyNext(_, Alone(_), rest) => KeysOf(rest)
    case BodyNext(_, Member(raw, _, _), rest) => [Decode(raw)] + KeysOf(rest)
  }

  ghost predicate NoRepeat(keys: seq<string>) {
    forall i, j | 0 <= i < j < |keys| :: keys[i] != keys[j]
  }

  ghost function Elements(keys: seq<string>): set<string> {
    set k | k in keys
  }

  /** The keys are distinct, not empty, and none is among the keys that are taken. */
  ghost predicate NewKeys(keys: seq<string>, taken: set<string>) {
    NoRepeat(keys) && "" !in keys && forall k | k in keys :: k !in taken
  }

  lemma ConsKey(key: string, keys: seq<string>, taken: set<string>)
    requires NewKeys(keys, taken + {key}) && key != "" && key !in taken
    ensures NewKeys([key] + keys, taken)
    ensures taken + {key} + Elements(keys) == taken + Elements([key] + keys)
  {
    assert forall k | k in [key] + keys :: k == key || k in keys;
    assert forall j | 0 < j < |[key] + keys| :: ([key] + keys)[j] == keys[j - 1];
    assert forall k | k in keys :: k in [key] + keys;
    assert ([key] + keys)[0] == key;
  }

  /** A member goes to a map that does not have its key yet. */
  lemma MemberStored(b: Body, colon: bool, first: bool, members: map<string, Value>) returns (rest: Body, more: map<string, Value>, after: bool)
    requires BodyDerives(b, colon, first, members.Keys) && b.BodyNext? && b.entry.Member?
    ensures var key := Decode(b.entry.raw);
            && rest == b.rest && KeysOf(b) == [key] + KeysOf(rest)
            && BodyInto(b, members) == BodyInto(rest, more)
            && more.Keys == members.Keys + {key} && |more| == |members| + 1
            && key != "" && key !in members && BodyDerives(rest, after, false, more.Keys)
  {
    hide Derives, Denote, Decode, Raw, Gap, Separator;
    var key := Decode(b.entry.raw);
    rest, more := b.rest, members[key := Denote(b.entry.value)];
    after := !b.entry.value.CString? && (colon || ':' in b.entry.sep);
    assert more.Keys == members.Keys + {key};
  }

  /** The members of an object: every key stored once, none empty, none taken before. */
  lemma {:induction false} KeysStored(b: Body, colon: bool, first: bool, members: map<string, Value>)
    requires BodyDerives(b, colon, first, members.Keys)
    ensures NewKeys(KeysOf(b), members.Keys)
    ensures BodyInto(b, members).Keys == members.Keys + Elements(KeysOf(b))
    ensures |BodyInto(b, members)| == |members| + |KeysOf(b)|
    decreases b
  {
    hide Derives, Denote, Decode, Raw, Gap, Separator, NewKeys, Elements;
    match b
    case BodyEnd(_) =>
      NoKeys(members.Keys);
    case BodyNext(_, Alone(_), rest) =>
      KeysStored(rest, colon, false, members);
    case BodyNext(_, Member(raw, _, _), _) =>
      hide BodyDerives, KeysOf, BodyInto;
      var rest, more, after := MemberStored(b, colon, first, members);
      KeysStored(rest, after, false, more);
      ConsKey(Decode(raw), KeysOf(rest), members.Keys);
  }

  lemma NoKeys(taken: set<string>)
    ensures NewKeys([], taken) && taken + Elements([]) == taken
  {
  }

  /** No object at any depth has a repeated or an empty key, and each object is as large as its member list. */
  ghost predicate KeysKept(v: Cst) {
    match v
    case CObject(b) => NewKeys(KeysOf(b), {}) && |BodyInto(b, map[])| == |KeysOf(b)| && BodyKeysKept(b)
    case CArray(e) => ElemsKeysKept(e)
    case _ => true
  }

  ghost predicate BodyKeysKept(b: Body) {
    match b
    case BodyEnd(_) => true
    case BodyNext(_, Alone(_), rest) => BodyKeysKept(rest)
    case BodyNext(_, Member(_, _, v), rest) => KeysKept(v) && BodyKeysKept(rest)
  }

  ghost predicate ElemsKeysKept(e: Elems) {
    match e
    case ElemsEnd(_) => true
    case ElemsNext(_, v, rest) => KeysKept(v) && ElemsKeysKept(rest)
  }

  lemma {:induction false} DerivedKeysKept(v: Cst)
    requires Derives(v)
    ensures KeysKept(v)
    decreases v
  {
    match v
    case CObject(b) =>
      var empty: map<string, Value> := map[];
      assert empty.Keys == {};
      KeysStored(b, false, true, empty);
      BodyKeysAreKept(b, false, true, {});
    case CArray(e) => ElemsKeysAreKept(e, true);
    case _ =>
  }

  lemma {:induction false} BodyKeysAreKept(b: Body, colon: bool, first: bool, keys: set<string>)
    requires BodyDerives(b, colon, first, keys)
    ensures BodyKeysKept(b)
    decreases b
  {
    match b
    case BodyEnd(_) =>
    case BodyNext(_, Alone(_), rest) => BodyKeysAreKept(rest, colon, false, keys);
    case BodyNext(_, Member(raw, sep, v), rest) =>
      DerivedKeysKept(v);
      BodyKeysAreKept(rest, !v.CString? && (colon || ':' in sep), false, keys + {Decode(raw)});
  }

  lemma {:induction false} ElemsKeysAreKept(e: Elems, first: bool)
    requires ElemsDerives(e, first)
    ensures ElemsKeysKept(e)
    decreases e
  {
    match e
    case ElemsEnd(_) =>
    case ElemsNext(_, v, rest) =>
      DerivedKeysKept(v);
      ElemsKeysAreKept(rest, false);
  }

  function Max(a: nat, b: nat): nat {
    if a < b then b else a
  }

  function Nodes(v: Cst): nat {
    match v case CObject(b) => 1 + BodyNodes(b) case CArray(e) => 1 + ElemsNodes(e) case _ => 1
  }

  function BodyNodes(b: Body): nat {
    match b
    case BodyEnd(_) => 0
    case BodyNext(_, Alone(_), rest) => BodyNodes(rest)
    case BodyNext(_, Member(_, _, v), rest) => Nodes(v) + BodyNodes(rest)
  }

  function ElemsNodes(e: Elems): nat {
    match e case ElemsEnd(_) => 0 case ElemsNext(_, v, rest) => Nodes(v) + ElemsNodes(rest)
  }

  /** The depth of the containers. */
  function Depth(v: Cst): nat {
    match v case CObject(b) => 1 + BodyDepth(b) case CArray(e) => 1 + ElemsDepth(e) case _ => 0
  }

  function BodyDepth(b: Body): nat {
    match b
    case BodyEnd(_) => 0
    case BodyNext(_, Alone(_), rest) => BodyDepth(rest)
    case BodyNext(_, Member(_, _, v), rest) => Max(Depth(v), BodyDepth(rest))
  }

  function ElemsDepth(e: Elems): nat {
    match e case ElemsEnd(_) => 0 case ElemsNext(_, v, rest) => Max(Depth(v), ElemsDepth(rest))
  }

  /** A tree has at most as many nodes as characters read, and half as many levels. */
  lemma {:induction false} SizeBounds(v: Cst)
    requires Derives(v)
    ensures Nodes(v) <= |Text(v)| && 2 * Depth(v) <= |Text(v)|
    decreases v
  {
    match v
    case CObject(b) => BodySizeBounds(b, false, true, {});
    case CArray(e) => ElemsSizeBounds(e, true);
    case _ =>
  }

  lemma {:induction false} BodySizeBounds(b: Body, colon: bool, first: bool, keys: set<string>)
    requires BodyDerives(b, colon, first, keys)
    ensures BodyNodes(b) < |BodyText(b)| && 2 * BodyDepth(b) < |BodyText(b)|
    decreases b
  {
    match b
    case BodyEnd(_) =>
    case BodyNext(_, Alone(raw), rest) =>
      BodySizeBounds(rest, colon, false, keys);
      assert |BodyText(b)| >= |BodyText(rest)|;
    case BodyNext(gap, Member(raw, sep, v), rest) =>
      SizeBounds(v);
      BodySizeBounds(rest, !v.CString? && (colon || ':' in sep), false, keys + {Decode(raw)});
      assert |BodyText(b)| >= |Text(v)| + |BodyText(rest)|;
  }

  lemma {:induction false} ElemsSizeBounds(e: Elems, first: bool)
    requires ElemsDerives(e, first)
    ensures ElemsNodes(e) < |ElemsText(e)| && 2 * ElemsDepth(e) < |ElemsText(e)|
    decreases e
  {
    match e
    case ElemsEnd(_) =>
    case ElemsNext(_, v, rest) =>
      SizeBounds(v);
      ElemsSizeBounds(rest, false);
  }

  /** An accepted object, at every depth: distinct, non-empty keys, none lost; no more nodes than characters,
      and no more than half as many levels. */
  lemma AcceptedShape(s: string, b: nat)
    requires b <= |s| && ParseObject(s, b).next.Some?
    ensures var r, m := ParseObject(s, b).next.value, ParseObject(s, b).contents;
            exists lead, body :: ObjectDerivation(s, b, r, m, lead, body) && KeysKept(CObject(body))
              && Nodes(CObject(body)) <= r - b && 2 * Depth(CObject(body)) <= r - b
  {
    hide ParseObject, Text, Derives, Denote, KeysKept, Nodes, Depth;
    var r, m := ParseObject(s, b).next.value, ParseObject(s, b).contents;
    ObjectLanguage(s, b, r, m);
    var lead, body :| ObjectDerivation(s, b, r, m, lead, body);
    DerivedKeysKept(CObject(body));
    SizeBounds(CObject(body));
  }

  /** The same for an array, unless it is a closing bracket alone. */
  lemma AcceptedArrayShape(s: string, b: nat)
    requires b <= |s| && ParseArray(s, b).next.Some?
    ensures var r, items := ParseArray(s, b).next.value, ParseArray(s, b).contents;
            || (exists lead :: ClosingAlone(s, b, r, items, lead))
            || (exists lead, elems :: ArrayDerivation(s, b, r, items, lead, elems) && KeysKept(CArray(elems))
                  && Nodes(CArray(elems)) <= r - b && 2 * Depth(CArray(elems)) <= r - b)
  {
    hide ParseArray, Text, Derives, Denote, KeysKept, Nodes, Depth;
    var r, items := ParseArray(s, b).next.value, ParseArray(s, b).contents;
    ArrayLanguage(s, b, r, items);
    if lead, elems :| ArrayDerivation(s, b, r, items, lead, elems) {
      DerivedKeysKept(CArray(elems));
      SizeBounds(CArray(elems));
    }
  }

  // ------------------------------------------------------------- blanks, and what is none

  /** The four characters that may stand before, and inside, an empty object or array. */
  predicate OnlyBlanks(t: string) {
    forall i | 0 <= i < |t| :: t[i] == ' ' || t[i] == '\n' || t[i] == '\r' || t[i] == '\t'
  }

  lemma BlanksAreSkipped(before: string, inside: string, rest: string)
    requires OnlyBlanks(before) && OnlyBlanks(inside)
    ensures ParseObject(before + ("{" + (inside + "}")) + rest, 0) == Read(Some(|before| + |inside| + 2), map[])
    ensures ParseArray(before + ("[" + (inside + "]")) + rest, 0) == Read(Some(|before| + |inside| + 2), [])
  {
    hide ParseObject, ParseArray;
    assert Blank(before) && Gap(inside);
    var body, elems := BodyEnd(inside), ElemsEnd(inside);
    var s, t := before + ("{" + (inside + "}")) + rest, before + ("[" + (inside + "]")) + rest;
    var r := |before| + |inside| + 2;
    assert s[0..] == s && t[0..] == t;
    assert Text(CObject(body)) == "{" + (inside + "}") && Text(CArray(elems)) == "[" + (inside + "]");
    assert Derives(CObject(body)) && Denote(CObject(body)) == Obj(map[]);
    assert Derives(CArray(elems)) && Denote(CArray(elems)) == Arr([]);
    assert before + Text(CObject(body)) <= s && before + Text(CArray(elems)) <= t;
    assert ObjectDerivation(s, 0, r, map[], before, body);
    assert ArrayDerivation(t, 0, r, [], before, elems);
    ObjectLanguage(s, 0, r, map[]);
    ArrayLanguage(t, 0, r, []);
  }

  /** Any other first character is refused, but for the opening bracket, and for arrays the closing one. */
  lemma OthersAreRefused(c: char, rest: string)
    requires !OnlyBlanks([c])
    ensures c != '{' ==> ParseObject([c] + rest, 0) == Read(None, map[])
    ensures c != '[' && c != ']' ==> ParseArray([c] + rest, 0) == Read(None, [])
  {
    var s := [c] + rest;
    assert s[0] == c && [c][0] == c;
    assert LeadEnd(s, 0) == 0;
    ObjectLead(s, 0, map[]);
    ArrayLead(s, 0, []);
  }

  /** A position behind the text is taken for an end of object or array. */
  lemma BehindText(s: string, b: nat)
    requires b > |s|
    ensures ParseObject(s, b) == Read(Some(b + 1), map[]) && ParseArray(s, b) == Read(Some(b + 1), [])
  {
  }
}
