/** The JSON reader as a function: the loops of the object and the array reader, with their flags. */
module JsonReader {
  import opened Texts
  import opened JsonStrings
  import opened JsonNumbers

  /** A JSON tree. The members of an object have no order. */
  datatype Value =
    | Obj(members: map<string, Value>)
    | Arr(items: seq<Value>)
    | Str(text: string)
    | Num(number: real)
    | Bool(flag: bool)
    | Null

  /** The outcome of reading a container: the next position, unless it is invalid, and what was stored. */
  datatype Read<+T> = Read(next: Option<nat>, contents: T)

  /** The outcome of reading a value: nothing stored, an invalid value stored, or a value read. */
  datatype ValueRead = Refused | Broken(value: Value) | Taken(value: Value, next: nat)

  /** The variables of the object loop. */
  datatype ObjectState =
    ObjectState(idx: nat, open: bool, colon: bool, allow: bool, attr: string, members: map<string, Value>)

  /** The variables of the array loop. */
  datatype ArrayState = ArrayState(idx: nat, open: bool, allow: bool, items: seq<Value>)

  function Substr(s: string, i: nat, n: nat): string
    requires i <= |s|
  {
    if |s| - i < n then s[i..] else s[i..i + n]
  }

  ghost predicate After(s: string, i: nat, next: Option<nat>) {
    next.Some? ==> i < next.value && (i <= |s| ==> next.value <= |s|)
  }

  function ReadObject(s: string, st: ObjectState): (r: Read<map<string, Value>>)
    ensures After(s, st.idx, r.next)
    decreases |s| - st.idx, if st.open then 1 else 0, 0
  {
    if st.idx >= |s| then
      Read(if st.idx == |s| || st.attr != "" then None else Some(st.idx + 1), st.members)
    else
      var c := s[st.idx];
      var fail := Read(None, st.members);
      var step := st.(idx := st.idx + 1);
      if Skippable(c) then ReadObject(s, step)
      else if c == '{' && !st.open then ReadObject(s, step.(open := true))
      else if !st.open then fail
      else if c == '"' && st.attr == "" then
        if !st.allow then fail
        else match ParseQuoted(s, st.idx)
          case None => fail
          case Some(q) => ReadObject(s, st.(idx := q.next, attr := q.text, allow := false))
      else if c == '"' && !st.colon then fail
      else if c == ',' then
        if st.attr != "" then fail else ReadObject(s, step.(allow := true))
      else if c == '}' then
        if st.attr != "" then fail else Read(Some(st.idx + 1), st.members)
      else if st.attr == "" then fail
      else if c == ':' then ReadObject(s, step.(colon := true))
      else
        match ReadValue(s, st.idx)
        case Refused => fail
        case Broken(v) => Read(None, st.members[st.attr := v])
        case Taken(v, next) =>
          ReadObject(s, Commit(st, v, next, c == '"'))
  }

  /** The key is stored; it is moved away only if it is new. A string value uses the colon up. */
  function Commit(st: ObjectState, v: Value, next: nat, stringValue: bool): ObjectState {
    st.(idx := next,
        colon := if stringValue then false else st.colon,
        attr := if st.attr in st.members then st.attr else "",
        members := st.members[st.attr := v])
  }

  function ReadArray(s: string, st: ArrayState): (r: Read<seq<Value>>)
    ensures After(s, st.idx, r.next)
    decreases |s| - st.idx, if st.open then 1 else 0, 0
  {
    if st.idx >= |s| then
      Read(if st.idx == |s| then None else Some(st.idx + 1), st.items)
    else
      var c := s[st.idx];
      var fail := Read(None, st.items);
      var step := st.(idx := st.idx + 1);
      if Skippable(c) then ReadArray(s, step)
      else if c == ',' then
        if !st.open then fail else ReadArray(s, step.(allow := true))
      else if c == '[' && !st.open then ReadArray(s, step.(open := true))
      else if c == ']' then Read(Some(st.idx + 1), st.items)
      else if !st.allow || !st.open then fail
      else
        match ReadValue(s, st.idx)
        case Refused => fail
        case Broken(v) => Read(None, st.items + [v])
        case Taken(v, next) => ReadArray(s, st.(idx := next, allow := false, items := st.items + [v]))
  }

  function ObjectStart(i: nat, members: map<string, Value>): ObjectState {
    ObjectState(i, false, false, true, "", members)
  }

  function ArrayStart(i: nat, items: seq<Value>): ArrayState {
    ArrayState(i, false, true, items)
  }

  function StoredObject(r: Read<map<string, Value>>): ValueRead {
    match r.next case Some(j) => Taken(Obj(r.contents), j) case None => Broken(Obj(r.contents))
  }

  function StoredArray(r: Read<seq<Value>>): ValueRead {
    match r.next case Some(j) => Taken(Arr(r.contents), j) case None => Broken(Arr(r.contents))
  }

  /** The value that starts at `i`; a string that ends the text is invalid. */
  function ReadValue(s: string, i: nat): (r: ValueRead)
    requires i < |s|
    ensures r.Taken? ==> i < r.next <= |s|
    decreases |s| - i, 0, 1
  {
    var c := s[i];
    if c == '{' then StoredObject(ReadObject(s, ObjectStart(i, map[])))
    else if c == '[' then StoredArray(ReadArray(s, ArrayStart(i, [])))
    else ReadLeaf(s, i)
  }

  function ReadLeaf(s: string, i: nat): (r: ValueRead)
    requires i < |s|
    ensures r.Taken? ==> i < r.next <= |s|
  {
    var c := s[i];
    if c == '"' then
      match ParseQuoted(s, i)
      case None => Broken(Str(""))
      case Some(q) => if q.next >= |s| then Broken(Str(q.text)) else Taken(Str(q.text), q.next)
    else if Digit(c) then
      match ParseNumber(s, i)
      case Number(x, j) => Taken(Num(x), j)
      case _ => Broken(Num(0.0))
    else if c == 't' then
      if |s| - i < 4 || Substr(s, i, 4) != "true" then Refused else Taken(Bool(true), i + 4)
    else if c == 'f' then
      if |s| - i < 5 && Substr(s, i, 5) != "false" then Refused else Taken(Bool(false), i + 5)
    else if c == 'n' then
      if |s| - i < 4 && Substr(s, i, 4) != "null" then Refused else Taken(Null, i + 4)
    else Refused
  }

  /** `JsonObject::parse` on a fresh object. */
  function ParseObject(s: string, begin: nat): Read<map<string, Value>> {
    ReadObject(s, ObjectStart(begin, map[]))
  }

  /** `JsonArray::parse` on a fresh array. */
  function ParseArray(s: string, begin: nat): Read<seq<Value>> {
    ReadArray(s, ArrayStart(begin, []))
  }
}
