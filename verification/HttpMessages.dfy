/** The HTTP request reader and the texts it reads back. */
module HttpMessages {
  import opened Tokenizer

  const CRLF: string := "\r\n"
  const BLANK_LINE: string := CRLF + CRLF
  const VERSION: string := "HTTP/1.1"

  datatype Method = GET | HEAD | POST | PUT | DELETE | CONNECT | OPTIONS | TRACE | PATCH | UNDEFINED

  function MethodName(m: Method): string {
    match m
    case GET => "GET"
    case HEAD => "HEAD"
    case POST => "POST"
    case PUT => "PUT"
    case DELETE => "DELETE"
    case CONNECT => "CONNECT"
    case OPTIONS => "OPTIONS"
    case TRACE => "TRACE"
    case PATCH => "PATCH"
    case UNDEFINED => "UNDEFINED"
  }

  /** The entry of the table with this name; a name that is not there is undefined. */
  function MethodOf(name: string): Method {
    if name == "GET" then GET
    else if name == "HEAD" then HEAD
    else if name == "POST" then POST
    else if name == "PUT" then PUT
    else if name == "DELETE" then DELETE
    else if name == "CONNECT" then CONNECT
    else if name == "OPTIONS" then OPTIONS
    else if name == "TRACE" then TRACE
    else if name == "PATCH" then PATCH
    else UNDEFINED
  }

  type Headers = map<string, seq<string>>
  type Field = (string, string)

  datatype Request = Request(verb: Method, path: string, headers: Headers, payload: string)

  /** A request nothing was read into yet; its method is whatever it is. */
  function Fresh(m: Method): Request {
    Request(m, "", map[], "")
  }

  function Values(headers: Headers, name: string): seq<string> {
    if name in headers then headers[name] else []
  }

  /** `headers[name] = value` appends. */
  function Put(headers: Headers, name: string, value: string): Headers {
    headers[name := Values(headers, name) + [value]]
  }

  // ------------------------------------------------------------------------ reading

  /** Where the head of the message ends, or -1. */
  function SplitPoint(text: string): (p: int)
    ensures -1 <= p <= |text|
  {
    var crlf := Find(text, BLANK_LINE, 0);
    if crlf.Some? then crlf.value
    else
      var lf := Find(text, "\n\n", 0);
      if lf.Some? then lf.value else -1
  }

  /** -1 as an end of the splitting is no end at all. */
  function HeadEnd(text: string): nat {
    if SplitPoint(text) < 0 then |text| else SplitPoint(text)
  }

  function HeadLines(text: string): seq<string> {
    Tokens(text, CRLF, false, true, 0, HeadEnd(text))
  }

  function Words(line: string): seq<string> {
    Tokens(line, " ", false, true, 0, |line|)
  }

  function FieldOf(line: string): Field {
    var colon := Find(line, ":", 0);
    if colon.None? then (line, "") else (line[..colon.value], TrimLeft(line[colon.value + 1..]))
  }

  /** A line of one character stops the reading of header fields. */
  function FieldsOf(lines: seq<string>): seq<Field> {
    if lines == [] || |lines[0]| <= 1 then [] else [FieldOf(lines[0])] + FieldsOf(lines[1..])
  }

  function Collected(headers: Headers, fields: seq<Field>): Headers
    decreases |fields|
  {
    if fields == [] then headers else Collected(Put(headers, fields[0].0, fields[0].1), fields[1..])
  }

  /** The request line has its three words. */
  predicate Readable(text: string) {
    HeadLines(text) != [] && |Words(HeadLines(text)[0])| == 3
  }

  /** The payload would start behind the end of the text, which is an exception. */
  predicate Throws(text: string) {
    Readable(text) && SplitPoint(text) + |BLANK_LINE| > |text|
  }

  /** The request after reading the text. */
  function Parsed(text: string, r: Request): Request {
    if Readable(text) then
      var lines := HeadLines(text);
      Request(MethodOf(Words(lines[0])[0]), Words(lines[0])[1], Collected(r.headers, FieldsOf(lines[1..])),
              if Throws(text) then r.payload else text[SplitPoint(text) + |BLANK_LINE|..])
    else r
  }

  // ------------------------------------------------------------------------ printing

  function RequestLine(r: Request): string {
    MethodName(r.verb) + " " + r.path
  }

  function FieldLine(f: Field): string {
    f.0 + ": " + f.1
  }

  function FieldText(name: string, value: string): string {
    name + ": " + value + CRLF
  }

  function FieldLines(fields: seq<Field>): seq<string> {
    if fields == [] then [] else [FieldLine(fields[0])] + FieldLines(fields[1..])
  }

  function FieldsNamed(name: string, values: seq<string>): seq<Field> {
    if values == [] then [] else [(name, values[0])] + FieldsNamed(name, values[1..])
  }

  /** The fields in the order in which the header map is walked. */
  function FieldsIn(order: seq<string>, headers: Headers): seq<Field>
    requires forall k | k in order :: k in headers
  {
    if order == [] then [] else FieldsNamed(order[0], headers[order[0]]) + FieldsIn(order[1..], headers)
  }

  predicate Distinct(order: seq<string>) {
    forall i, j | 0 <= i < j < |order| :: order[i] != order[j]
  }

  /** One of the orders in which an unordered map can be walked. */
  predicate WalkOf(order: seq<string>, headers: Headers) {
    Distinct(order) && (forall k | k in order :: k in headers) && (forall k | k in headers :: k in order)
  }

  function HeaderText(order: seq<string>, headers: Headers): string
    requires forall k | k in order :: k in headers
  {
    Terminated(FieldLines(FieldsIn(order, headers)), CRLF)
  }

  /** The message of a request, by the message format of RFC 9112 section 2.1. */
  function Message(r: Request, order: seq<string>): string
    requires WalkOf(order, r.headers)
  {
    RequestLine(r) + " " + VERSION + CRLF + HeaderText(order, r.headers) + CRLF + r.payload
  }

  // ------------------------------------------------------------------------ the classes

  class HeaderList {
    var headers: Headers

    constructor ()
      ensures headers == map[]
    {
      headers := map[];
    }

    /** `(*this)[headerName] = value`, and `set`. */
    method Set(name: string, value: string)
      modifies this
      ensures headers == Put(old(headers), name, value)
    {
      headers := headers[name := Values(headers, name) + [value]];
    }

    /** The header fields as text, walking the map in the given order. */
    method Str(order: seq<string>) returns (text: string)
      requires WalkOf(order, headers)
      ensures text == HeaderText(order, headers)
    {
      hide HeaderText, ValuesText, FieldText, FieldsIn;
      assert order[0..] == order;
      text := "";
      for i := 0 to |order|
        invariant HeaderText(order, headers) == text + HeaderText(order[i..], headers)
      {
        var values := headers[order[i]];
        ghost var rest := HeaderText(order[i + 1..], headers);
        NameText(order[i..], headers);
        assert order[i..][1..] == order[i + 1..];
        for j := 0 to |values|
          invariant HeaderText(order, headers) == text + ValuesText(order[i], values[j..]) + rest
        {
          ValueText(order[i], values[j..]);
          assert values[j..][1..] == values[j + 1..];
          text := text + FieldText(order[i], values[j]);
        }
        NoValuesText(order[i], values[|values|..]);
      }
      NoHeaderText(order[|order|..], headers);
    }

    method Clear()
      modifies this
      ensures headers == map[]
    {
      headers := map[];
    }
  }

  class HttpRequest {
    var verb: Method
    var path: string
    const headers: HeaderList
    var payload: string

    /** What the object holds. */
    function Contents(): Request
      reads this, headers
    {
      Request(verb, path, headers.headers, payload)
    }

    constructor (m: Method)
      ensures Contents() == Fresh(m) && fresh(headers)
    {
      verb, path, payload := m, "", "";
      headers := new HeaderList();
    }

    /** Reads a message; header values are added to those already there. Fails where the source throws. */
    method Parse(text: string) returns (ok: bool)
      modifies this, headers
      ensures Contents() == Parsed(text, old(Contents()))
      ensures ok <==> !Throws(text)
    {
      hide Tokens, Find, Put, FieldOf;
      var crlf := Find(text, BLANK_LINE, 0);
      var splitPt: int := if crlf.Some? then crlf.value else -1;
      if splitPt == -1 {
        var lf := Find(text, "\n\n", 0);
        splitPt := if lf.Some? then lf.value else -1;
      }
      var headerTokens := Tokenize(text, CRLF, false, true, 0, if splitPt < 0 then |text| else splitPt);
      assert splitPt == SplitPoint(text) && headerTokens == HeadLines(text);
      if |headerTokens| == 0 {
        return true;
      }
      var requestLine := Tokenize(headerTokens[0], " ", false, true, 0, |headerTokens[0]|);
      if |requestLine| != 3 {
        return true;
      }
      verb := MethodOf(requestLine[0]);
      path := requestLine[1];
      ReadHeaders(headerTokens);
      ok := splitPt + |BLANK_LINE| <= |text|;
      if ok {
        payload := text[splitPt + |BLANK_LINE|..];
      }
    }

    /** The loop over the header lines. */
    method ReadHeaders(lines: seq<string>)
      requires |lines| > 0
      modifies headers
      ensures headers.headers == Collected(old(headers.headers), FieldsOf(lines[1..]))
    {
      hide Find, Put;
      var idx := 1;
      while idx < |lines|
        invariant 1 <= idx <= |lines|
        invariant Collected(old(headers.headers), FieldsOf(lines[1..])) ==
                  Collected(headers.headers, FieldsOf(lines[idx..]))
      {
        assert lines[idx..][1..] == lines[idx + 1..];
        if |lines[idx]| <= 1 {
          break;
        }
        var line := lines[idx];
        CollectedCons(headers.headers, FieldOf(line), FieldsOf(lines[idx + 1..]));
        var colon := Find(line, ":", 0);
        if colon.None? {
          headers.Set(line, "");
        } else {
          var key := line[..colon.value];
          var vStart := colon.value + 1;
          while vStart < |line| && line[vStart] == ' '
            invariant colon.value < vStart <= |line|
            invariant TrimLeft(line[vStart..]) == TrimLeft(line[colon.value + 1..])
          {
            assert line[vStart..][1..] == line[vStart + 1..];
            vStart := vStart + 1;
          }
          headers.Set(key, line[vStart..]);
        }
        idx := idx + 1;
      }
    }

    method ToString() returns (text: string)
      ensures text == RequestLine(Contents())
    {
      text := MethodName(verb) + " " + path;
    }

    /** The method is not cleared. */
    method Clear()
      modifies this, headers
      ensures Contents() == Fresh(old(verb))
    {
      path := "";
      headers.Clear();
      payload := "";
    }
  }

  // ------------------------------------------------------------------------ steps of the loops

  lemma CollectedCons(headers: Headers, f: Field, fields: seq<Field>)
    ensures Collected(headers, [f] + fields) == Collected(Put(headers, f.0, f.1), fields)
  {
    assert ([f] + fields)[1..] == fields;
  }

  function ValuesText(name: string, values: seq<string>): string {
    Terminated(FieldLines(FieldsNamed(name, values)), CRLF)
  }

  lemma {:induction false} TextAppend(fs: seq<Field>, gs: seq<Field>)
    ensures Terminated(FieldLines(fs + gs), CRLF) == Terminated(FieldLines(fs), CRLF) + Terminated(FieldLines(gs), CRLF)
    decreases |fs|
  {
    if fs == [] {
      assert fs + gs == gs;
    } else {
      assert (fs + gs)[1..] == fs[1..] + gs;
      TextAppend(fs[1..], gs);
    }
  }

  lemma NameText(order: seq<string>, headers: Headers)
    requires order != [] && forall k | k in order :: k in headers
    ensures HeaderText(order, headers) == ValuesText(order[0], headers[order[0]]) + HeaderText(order[1..], headers)
  {
    TextAppend(FieldsNamed(order[0], headers[order[0]]), FieldsIn(order[1..], headers));
  }

  lemma ValueText(name: string, values: seq<string>)
    requires values != []
    ensures ValuesText(name, values) == FieldText(name, values[0]) + ValuesText(name, values[1..])
  {
    var rest := FieldsNamed(name, values[1..]);
    assert ([(name, values[0])] + rest)[1..] == rest;
    assert ([FieldLine((name, values[0]))] + FieldLines(rest))[1..] == FieldLines(rest);
  }

  lemma NoValuesText(name: string, values: seq<string>)
    requires values == []
    ensures ValuesText(name, values) == ""
  {
  }

  lemma NoHeaderText(order: seq<string>, headers: Headers)
    requires order == []
    ensures HeaderText(order, headers) == ""
  {
  }
}
