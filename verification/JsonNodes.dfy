/** The nodes of a JSON tree as objects that parse and print themselves.
    The class hierarchy is one class here, tagged by `element` as the nodes are. */
module JsonNodes {
  import opened Texts
  import opened JsonStrings
  import opened JsonNumbers
  import opened JsonReader
  import opened JsonPrinter

  datatype JsonElement = Object | Array | String | Number | Boolean | Void

  /** What a node holds before anything is read into it. */
  function Initial(element: JsonElement): Value {
    match element
    case Object => Obj(map[])
    case Array => Arr([])
    case String => Str("")
    case Number => Num(0.0)
    case Boolean => Bool(false)
    case Void => Null
  }

  /** The text is the print of the tree, in one of the orders in which the maps may be iterated. */
  ghost predicate Printed(out: string, v: Value, compact: bool, indent: int) {
    exists o :: Distinct(o) && Tree(o) == v && out == Print(o, compact, indent)
  }

  lemma IsPrinted(o: Ordered, compact: bool, indent: int)
    requires Distinct(o)
    ensures Printed(Print(o, compact, indent), Tree(o), compact, indent)
  {
  }

  lemma OrderOf(out: string, v: Value, compact: bool, indent: int) returns (o: Ordered)
    requires Printed(out, v, compact, indent)
    ensures Distinct(o) && Tree(o) == v && out == Print(o, compact, indent)
  {
    o :| Distinct(o) && Tree(o) == v && out == Print(o, compact, indent);
  }

  ghost predicate PrintedMember(member: string, k: string, v: Value, compact: bool, indent: int) {
    exists o :: Distinct(o) && Tree(o) == v && member == PrintMember(k, o, compact, indent)
  }

  lemma OrderOfMember(member: string, k: string, v: Value, compact: bool, indent: int) returns (o: Ordered)
    requires PrintedMember(member, k, v, compact, indent)
    ensures Distinct(o) && Tree(o) == v && member == PrintMember(k, o, compact, indent)
  {
    o :| Distinct(o) && Tree(o) == v && member == PrintMember(k, o, compact, indent);
  }

  lemma LeafPrinted(o: Ordered, v: Value, out: string, compact: bool, indent: int)
    requires !o.OObj? && !o.OArr? && Tree(o) == v && out == Print(o, compact, indent)
    ensures Printed(out, v, compact, indent)
  {
    IsPrinted(o, compact, indent);
  }

  class JsonNode {
    const element: JsonElement
    var valid: bool
    var jsonObject: map<string, JsonNode>
    var jsonArray: seq<JsonNode>
    var str: string
    var jsonNumber: real
    var jsonBoolean: bool

    /** The tree below this node, and the nodes it is made of. */
    ghost var tree: Value
    ghost var repr: set<object>

    ghost predicate Valid()
      reads this, repr
      ensures Valid() ==> this in repr
      decreases repr
    {
      && this in repr
      && match element
         case Object =>
           && tree.Obj? && jsonObject.Keys == tree.members.Keys
           && (forall k | k in jsonObject ::
                 && jsonObject[k] in repr && jsonObject[k].repr <= repr && this !in jsonObject[k].repr
                 && jsonObject[k].Valid() && jsonObject[k].tree == tree.members[k])
         case Array =>
           && tree.Arr? && |jsonArray| == |tree.items|
           && (forall i | 0 <= i < |jsonArray| ::
                 && jsonArray[i] in repr && jsonArray[i].repr <= repr && this !in jsonArray[i].repr
                 && jsonArray[i].Valid() && jsonArray[i].tree == tree.items[i])
         case String => tree == Str(str)
         case Number => tree == Num(jsonNumber)
         case Boolean => tree == Bool(jsonBoolean)
         case Void => tree == Null
    }

    /** Every node below this one is valid, at all depths. */
    ghost predicate SoundBelow()
      requires Valid()
      reads this, repr
      decreases repr
    {
      match element
      case Object => forall k | k in jsonObject :: jsonObject[k].valid && jsonObject[k].SoundBelow()
      case Array => forall i | 0 <= i < |jsonArray| :: jsonArray[i].valid && jsonArray[i].SoundBelow()
      case _ => true
    }

    constructor (element: JsonElement)
      ensures this.element == element && valid && tree == Initial(element)
      ensures Valid() && SoundBelow() && repr == {this}
    {
      this.element := element;
      valid := true;
      jsonObject := map[];
      jsonArray := [];
      str := "";
      jsonNumber := 0.0;
      jsonBoolean := false;
      tree := Initial(element);
      repr := {this};
    }

    constructor FromBool(b: bool)
      ensures element == Boolean && valid && tree == Bool(b)
      ensures Valid() && SoundBelow() && repr == {this}
    {
      element := Boolean;
      valid := true;
      jsonObject := map[];
      jsonArray := [];
      str := "";
      jsonNumber := 0.0;
      jsonBoolean := b;
      tree := Bool(b);
      repr := {this};
    }

    /** An object that reads itself from a text. */
    constructor ObjectFrom(jsonStr: string)
      ensures element == Object && Valid() && fresh(repr)
      ensures var r := JsonReader.ParseObject(jsonStr, 0);
              tree == Obj(r.contents) && (valid <==> r.next.Some?) && (valid ==> SoundBelow())
    {
      element := Object;
      valid := true;
      jsonObject := map[];
      jsonArray := [];
      str := "";
      jsonNumber := 0.0;
      jsonBoolean := false;
      tree := Initial(Object);
      repr := {this};
      new;
      var next := ParseObject(jsonStr, 0);
    }

    method Invalid() returns (next: Option<nat>)
      requires Valid()
      modifies this`valid
      ensures !valid && next == None
      ensures Valid() && (old(SoundBelow()) ==> SoundBelow())
    {
      valid := false;
      next := None;
    }

    /** A child whose nodes are left alone stays as it is. */
    twostate lemma ChildKept(c: JsonNode)
      requires old(c.Valid()) && this !in old(c.repr) && forall o | o in old(c.repr) :: unchanged(o)
      ensures c.Valid() && c.repr == old(c.repr) && c.tree == old(c.tree) && c.valid == old(c.valid)
      ensures c.SoundBelow() == old(c.SoundBelow())
    {
    }

    /** Stores a child under a key. */
    method Store(attr: string, child: JsonNode)
      requires Valid() && element == Object && child.Valid() && this !in child.repr
      modifies this`jsonObject, this`tree, this`repr
      ensures Valid() && repr == old(repr) + child.repr
      ensures tree == Obj(old(tree).members[attr := child.tree])
      ensures old(SoundBelow()) && child.valid && child.SoundBelow() ==> SoundBelow()
    {
      ghost var before, trees := jsonObject, tree.members;
      jsonObject, tree, repr := jsonObject[attr := child], Obj(tree.members[attr := child.tree]), repr + child.repr;
      ChildKept(child);
      forall k | k in jsonObject && k != attr
        ensures
          && jsonObject[k] in repr && jsonObject[k].repr <= repr && this !in jsonObject[k].repr
          && jsonObject[k].Valid() && jsonObject[k].tree == tree.members[k]
          && (old(SoundBelow()) ==> jsonObject[k].valid && jsonObject[k].SoundBelow())
      {
        ChildKept(before[k]);
        assert jsonObject[k] == before[k] && tree.members[k] == trees[k];
      }
    }

    /** Appends a child. */
    method Append(child: JsonNode)
      requires Valid() && element == Array && child.Valid() && this !in child.repr
      modifies this`jsonArray, this`tree, this`repr
      ensures Valid() && repr == old(repr) + child.repr
      ensures tree == Arr(old(tree).items + [child.tree])
      ensures old(SoundBelow()) && child.valid && child.SoundBelow() ==> SoundBelow()
    {
      jsonArray := jsonArray + [child];
      tree := Arr(tree.items + [child.tree]);
      repr := repr + child.repr;
    }

    /** `JsonObject::parse`. On a node that is not valid any more nothing is read. */
    method ParseObject(s: string, begin: nat) returns (next: Option<nat>)
      requires Valid() && element == Object
      modifies this
      ensures Valid() && fresh(repr - old(repr))
      ensures old(valid) ==>
                var r := ReadObject(s, ObjectStart(begin, old(tree).members));
                next == r.next && tree == Obj(r.contents) && (valid <==> next.Some?)
      ensures !old(valid) ==> next == None && tree == old(tree) && !valid
      ensures old(SoundBelow()) && next.Some? ==> SoundBelow()
      decreases |s| - begin, 0
    {
      hide JsonNode.SoundBelow, ReadValue, ReadArray, ParseQuoted, Skippable;
      var idx := begin;
      var end := |s|;
      var openCurlyBrace := false;
      var colon := false;
      var allowNextAttr := true;
      var attr := "";
      var failed := false;  // the loop was left without a position
      while idx < end
        invariant begin <= idx && (idx > begin ==> idx <= end) && (openCurlyBrace ==> begin < idx)
        invariant Valid() && fresh(repr - old(repr)) && tree.Obj? && valid == old(valid)
        invariant old(valid) ==>
                    ReadObject(s, ObjectStart(begin, old(tree).members)) ==
                    ReadObject(s, ObjectState(idx, openCurlyBrace, colon, allowNextAttr, attr, tree.members))
        invariant !old(valid) ==> attr == "" && tree == old(tree)
        invariant old(SoundBelow()) ==> SoundBelow()
        invariant !failed
        decreases end - idx
      {
        var iterChar := s[idx];
        if Skippable(iterChar) {
          idx := idx + 1;
          continue;
        }
        if iterChar == '{' && !openCurlyBrace {
          openCurlyBrace := true;
          idx := idx + 1;
          continue;
        }
        if !openCurlyBrace {
          failed := true;
          break;
        }
        if iterChar == '"' && attr == "" {
          if !allowNextAttr {
            failed := true;
            break;
          }
          var text, after := ParseQuotedText(s, idx);
          if after == None {
            failed := true;
            break;
          }
          if !valid {
            failed := true;
            break;
          }
          attr, idx, allowNextAttr := text, after.value, false;
          continue;
        }
        if iterChar == '"' && !colon {
          failed := true;
          break;
        }
        if iterChar == ',' {
          if attr != "" {
            failed := true;
            break;
          }
          allowNextAttr := true;
          idx := idx + 1;
          continue;
        }
        if iterChar == '}' {
          break;
        }
        if attr == "" {
          failed := true;
          break;
        }
        if iterChar == ':' {
          colon := true;
          idx := idx + 1;
          continue;
        }
        var after, repeated := ReadMember(s, idx, attr);
        if after == None {
          failed := true;
          break;
        }
        idx := after.value;
        attr := if repeated then attr else "";
        colon := if iterChar == '"' then false else colon;
      }
      if failed || idx == end || attr != "" {
        next := Invalid();
        return;
      }
      next := if valid then Some(idx + 1) else None;
    }

    /** The branches of the object loop for a value: a node is stored under the key unless nothing starts here. */
    method ReadMember(s: string, idx: nat, attr: string) returns (after: Option<nat>, repeated: bool)
      requires Valid() && element == Object && idx < |s|
      modifies this`jsonObject, this`tree, this`repr
      ensures Valid() && fresh(repr - old(repr))
      ensures repeated <==> attr in old(tree).members
      ensures match ReadValue(s, idx)
              case Refused => after == None && tree == old(tree)
              case Broken(v) => after == None && tree == Obj(old(tree).members[attr := v])
              case Taken(v, j) => after == Some(j) && tree == Obj(old(tree).members[attr := v])
      ensures old(SoundBelow()) && after.Some? ==> SoundBelow()
      decreases |s| - idx, 2
    {
      var child;
      child, after := ReadChild(s, idx);
      repeated := attr in jsonObject;
      if child != null {
        Store(attr, child);
      }
    }

    /** The branches of the array loop for a value. */
    method ReadElement(s: string, idx: nat) returns (after: Option<nat>)
      requires Valid() && element == Array && idx < |s|
      modifies this`jsonArray, this`tree, this`repr
      ensures Valid() && fresh(repr - old(repr))
      ensures match ReadValue(s, idx)
              case Refused => after == None && tree == old(tree)
              case Broken(v) => after == None && tree == Arr(old(tree).items + [v])
              case Taken(v, j) => after == Some(j) && tree == Arr(old(tree).items + [v])
      ensures old(SoundBelow()) && after.Some? ==> SoundBelow()
      decreases |s| - idx, 2
    {
      var child;
      child, after := ReadChild(s, idx);
      if child != null {
        Append(child);
      }
    }

    /** `JsonArray::parse`. */
    method ParseArray(s: string, begin: nat) returns (next: Option<nat>)
      requires Valid() && element == Array
      modifies this
      ensures Valid() && fresh(repr - old(repr))
      ensures var r := ReadArray(s, ArrayStart(begin, old(tree).items));
              tree == Arr(r.contents) && next == (if old(valid) then r.next else None) && (valid <==> next.Some?)
      ensures old(SoundBelow()) && next.Some? ==> SoundBelow()
      decreases |s| - begin, 0
    {
      hide JsonNode.SoundBelow, ReadValue, ReadObject, ParseQuoted, Skippable;
      var idx := begin;
      var end := |s|;
      var openBracket := false;
      var allowNextValue := true;
      while idx < end
        invariant begin <= idx && (idx > begin ==> idx <= end) && (openBracket ==> begin < idx)
        invariant Valid() && fresh(repr - old(repr)) && tree.Arr? && valid == old(valid)
        invariant ReadArray(s, ArrayStart(begin, old(tree).items)) ==
                  ReadArray(s, ArrayState(idx, openBracket, allowNextValue, tree.items))
        invariant old(SoundBelow()) ==> SoundBelow()
        decreases end - idx
      {
        if Skippable(s[idx]) {
          idx := idx + 1;
          continue;
        }
        var iterChar := s[idx];
        if iterChar == ',' {
          if !openBracket {
            next := Invalid();
            return;
          }
          allowNextValue := true;
          idx := idx + 1;
          continue;
        }
        if iterChar == '[' && !openBracket {
          openBracket := true;
          idx := idx + 1;
          continue;
        }
        if iterChar == ']' {
          break;
        }
        if !allowNextValue || !openBracket {
          next := Invalid();
          return;
        }
        var after := ReadElement(s, idx);
        if after == None {
          next := Invalid();
          return;
        }
        idx := after.value;
        allowNextValue := false;
      }
      if idx == end {
        next := Invalid();
        return;
      }
      next := if valid then Some(idx + 1) else None;
    }

    /** `JsonString::parse`. The default `end` is larger than every position. */
    method ParseString(s: string, begin: nat, end: nat) returns (next: Option<nat>)
      requires Valid() && element == String && begin <= |s|
      modifies this
      ensures Valid() && repr == old(repr)
      ensures tree == Str(match ParseQuoted(s, begin) case Some(q) => q.text case None => "")
      ensures valid <==> old(valid) && ParseQuoted(s, begin).Some? && ParseQuoted(s, begin).value.next < end
      ensures next == if valid then Some(ParseQuoted(s, begin).value.next) else None
    {
      var text, after := ParseQuotedText(s, begin);
      str := text;
      tree := Str(str);
      if after == None || !valid || after.value >= end {
        next := Invalid();
        return;
      }
      next := after;
    }

    /** `JsonNumber::parse`; `thrown` tells that the conversion threw, which leaves the number as it was. */
    method ParseNumber(s: string, begin: nat) returns (next: Option<nat>, thrown: bool)
      requires Valid() && element == JsonElement.Number
      modifies this
      ensures Valid() && repr == old(repr)
      ensures match JsonNumbers.ParseNumber(s, begin)
              case NoNumber => tree == old(tree) && !valid && next == None && !thrown
              case Unconverted => tree == old(tree) && valid == old(valid) && next == None && thrown
              case Number(x, j) => tree == Num(x) && valid == old(valid) && next == (if valid then Some(j) else None) && !thrown
    {
      var value, after;
      value, after, thrown := ParseNumberText(s, begin);
      if thrown {
        return None, true;
      }
      if after == None {
        next := Invalid();
        return;
      }
      jsonNumber := value.value;
      tree := Num(jsonNumber);
      next := if valid then after else None;
    }

    /** The branches for a value: makes a node of the kind that `s[idx]` calls for and lets it read itself. */
    static method ReadChild(s: string, idx: nat) returns (child: JsonNode?, next: Option<nat>)
      requires idx < |s|
      ensures child != null ==> fresh(child) && child.Valid() && fresh(child.repr)
      ensures match ReadValue(s, idx)
              case Refused => child == null && next == None
              case Broken(v) => child != null && child.tree == v && next == None
              case Taken(v, j) => child != null && child.tree == v && next == Some(j) && child.valid && child.SoundBelow()
      decreases |s| - idx, 1
    {
      child, next := null, None;
      var iterChar := s[idx];
      if iterChar == '{' {
        child := new JsonNode(Object);
        next := child.ParseObject(s, idx);
      } else if iterChar == '[' {
        child := new JsonNode(Array);
        next := child.ParseArray(s, idx);
      } else {
        child, next := ReadLeafChild(s, idx);
      }
    }

    static method ReadLeafChild(s: string, idx: nat) returns (child: JsonNode?, next: Option<nat>)
      requires idx < |s|
      ensures child != null ==> fresh(child) && child.Valid() && fresh(child.repr)
      ensures match ReadLeaf(s, idx)
              case Refused => child == null && next == None
              case Broken(v) => child != null && child.tree == v && next == None
              case Taken(v, j) => child != null && child.tree == v && next == Some(j) && child.valid && child.SoundBelow()
    {
      child, next := null, None;
      var iterChar := s[idx];
      if iterChar == '"' {
        child := new JsonNode(String);
        next := child.ParseString(s, idx, |s|);
      } else if Digit(iterChar) {
        child := new JsonNode(JsonElement.Number);
        var thrown;
        next, thrown := child.ParseNumber(s, idx);
      } else if iterChar == 't' {
        if |s| - idx < 4 || Substr(s, idx, 4) != "true" {
          return;
        }
        child := new JsonNode.FromBool(true);
        next := Some(idx + 4);
      } else if iterChar == 'f' {
        if |s| - idx < 5 && Substr(s, idx, 5) != "false" {
          return;
        }
        child := new JsonNode.FromBool(false);
        next := Some(idx + 5);
      } else if iterChar == 'n' {
        if |s| - idx < 4 && Substr(s, idx, 4) != "null" {
          return;
        }
        child := new JsonNode(Void);
        next := Some(idx + 4);
      }
    }

    /** `serialize` with `convertJson` set. */
    method Serialize(compact: bool, indent: int) returns (out: string)
      requires Valid()
      ensures Printed(out, tree, compact, indent)
      decreases repr, 2
    {
      match element {
        case Object =>
          out := SerializeObject(compact, indent);
        case Array =>
          out := SerializeArray(compact, indent);
        case String =>
          var text := JsonizeString(str);
          out := "\"" + text + "\"";
          LeafPrinted(OStr(str), tree, out, compact, indent);
        case Number =>
          out := PrintNumber(jsonNumber);
          LeafPrinted(ONum(jsonNumber), tree, out, compact, indent);
        case Boolean =>
          out := if jsonBoolean then "true" else "false";
          LeafPrinted(OBool(jsonBoolean), tree, out, compact, indent);
        case Void =>
          out := "null";
          LeafPrinted(ONull, tree, out, compact, indent);
      }
    }

    /** `JsonObject::serialize`: the members in any order, each printed once. */
    method SerializeObject(compact: bool, indent: int) returns (out: string)
      requires Valid() && element == Object
      ensures Printed(out, tree, compact, indent)
      decreases repr, 1
    {
      hide Print, PrintMember, PrintFirst, Tree, Distinct, MembersDistinct, MembersInto, Encode, Indentation, Printed, PrintedMember;
      NothingPrinted(compact, indent);
      var indentation := MakeIndentation(compact, indent);
      var newLine := if compact then "" else "\r\n";
      var inner := if compact then "" else indentation + "    ";
      var body := "";
      var todo := jsonObject.Keys;
      ghost var done := NoMember;
      assert inner == InnerMargin(compact, indent);
      hide InnerMargin;
      while todo != {}
        invariant todo <= jsonObject.Keys
        invariant MembersDistinct(done, {}) && MembersInto(done, map[]) == PrintedMembers(todo)
        invariant body == PrintFirst(done, todo != {}, compact, indent)
        decreases |todo|
      {
        var k :| k in todo;
        ghost var before := todo;
        todo := todo - {k};
        var member := SerializeMember(k, compact, indent);
        ghost var v := OrderOfMember(member, k, tree.members[k], compact, indent);
        var behind := (if todo != {} then "," else "") + newLine;
        assert behind == Behind(todo == {}, compact);
        body := body + (inner + (member + behind));
        PrintFirstSnoc(done, k, v, todo != {}, compact, indent);
        OnePrinted(done, k, v, before);
        done := MembersSnoc(done, k, v);
      }
      PrintFirstAll(done, compact, indent);
      out := "{" + newLine + body + (if compact then "" else indentation) + "}";
      ObjectPrinted(done, out, body, compact, indent);
      AllPrinted(done);
      IsPrinted(OObj(done), compact, indent);
    }

    /** One member, its value in one of its orders. */
    method SerializeMember(k: string, compact: bool, indent: int) returns (member: string)
      requires Valid() && element == Object && k in jsonObject
      ensures PrintedMember(member, k, tree.members[k], compact, indent)
      decreases repr, 0
    {
      hide Distinct, Tree, Print;
      var colon := if compact then ":" else ": ";
      var key := JsonizeString(k);
      var val := jsonObject[k].Serialize(compact, indent + 1);
      ghost var v := OrderOf(val, jsonObject[k].tree, compact, indent + 1);
      member := "\"" + key + "\"" + (colon + val);
      MemberPrinted(k, v, val, compact, indent);
    }

    /** The members that are printed when `todo` is left. */
    ghost function PrintedMembers(todo: set<string>): map<string, Value>
      requires Valid() && element == Object
      reads this, repr
    {
      map k | k in tree.members && k !in todo :: tree.members[k]
    }

    lemma NothingPrinted(compact: bool, indent: int)
      requires Valid() && element == Object
      ensures MembersDistinct(NoMember, {}) && MembersInto(NoMember, map[]) == PrintedMembers(jsonObject.Keys)
      ensures forall more :: PrintFirst(NoMember, more, compact, indent) == ""
    {
    }

    lemma OnePrinted(done: Members, k: string, v: Ordered, before: set<string>)
      requires Valid() && element == Object && k in before && k in tree.members && Distinct(v) && Tree(v) == tree.members[k]
      requires MembersDistinct(done, {}) && MembersInto(done, map[]) == PrintedMembers(before)
      ensures MembersDistinct(MembersSnoc(done, k, v), {})
      ensures MembersInto(MembersSnoc(done, k, v), map[]) == PrintedMembers(before - {k})
    {
      hide Tree, Distinct;
      var empty: map<string, Value> := map[];
      assert empty.Keys == {};
      MembersSnocTree(done, k, v, empty);
      assert PrintedMembers(before - {k}) == PrintedMembers(before)[k := tree.members[k]];
    }

    lemma AllPrinted(done: Members)
      requires Valid() && element == Object && MembersInto(done, map[]) == PrintedMembers({}) && MembersDistinct(done, {})
      ensures Tree(OObj(done)) == tree && Distinct(OObj(done))
    {
      assert PrintedMembers({}) == tree.members;
    }

    /** `JsonArray::serialize`. */
    method SerializeArray(compact: bool, indent: int) returns (out: string)
      requires Valid() && element == Array
      ensures Printed(out, tree, compact, indent)
      decreases repr, 0
    {
      hide Print, Tree, Printed, Distinct, ItemsDistinct, ItemsInto, PrintFirstItems, Indentation;
      NothingListed(compact, indent);
      var indentation := MakeIndentation(compact, indent);
      var newLine := if compact then "" else "\r\n";
      var inner := if compact then "" else indentation + "    ";
      var body := "";
      ghost var done := NoItem;
      assert inner == InnerMargin(compact, indent);
      hide InnerMargin;
      for i := 0 to |jsonArray|
        invariant ItemsDistinct(done) && ItemsInto(done, []) == tree.items[..i]
        invariant body == PrintFirstItems(done, i < |jsonArray|, compact, indent)
      {
        var val := jsonArray[i].Serialize(compact, indent + 1);
        ghost var v := OrderOf(val, jsonArray[i].tree, compact, indent + 1);
        var more := i + 1 < |jsonArray|;
        var behind := (if more then "," else "") + newLine;
        assert behind == Behind(!more, compact);
        body := body + (inner + (val + behind));
        PrintFirstItemsSnoc(done, v, more, compact, indent);
        ItemsSnocTree(done, v, []);
        NextItem(tree.items, i);
        done := ItemsSnoc(done, v);
      }
      PrintFirstAllItems(done, compact, indent);
      out := "[" + newLine + body + (if compact then "" else indentation) + "]";
      ArrayPrinted(done, out, body, compact, indent);
      assert tree.items[..|jsonArray|] == tree.items;
      ArrayTree(done, tree.items);
      IsPrinted(OArr(done), compact, indent);
    }

    lemma NothingListed(compact: bool, indent: int)
      ensures ItemsDistinct(NoItem) && ItemsInto(NoItem, []) == []
      ensures forall more :: PrintFirstItems(NoItem, more, compact, indent) == ""
    {
    }

    static method MakeIndentation(compact: bool, indent: int) returns (indentation: string)
      ensures indentation == Margin(compact, indent)
    {
      indentation := "";
      if !compact {
        var i := 0;
        while i < indent
          invariant 0 <= i && (i <= indent || i == 0)
          invariant indentation == Indentation(i)
        {
          indentation := indentation + "    ";
          i := i + 1;
        }
      }
    }
  }

  lemma MemberPrinted(k: string, v: Ordered, val: string, compact: bool, indent: int)
    requires val == Print(v, compact, indent + 1)
    ensures "\"" + Encode(k) + "\"" + ((if compact then ":" else ": ") + val) == PrintMember(k, v, compact, indent)
  {
  }

  lemma ObjectPrinted(done: Members, out: string, body: string, compact: bool, indent: int)
    requires body == PrintMembers(done, compact, indent)
    requires out == "{" + NewLine(compact) + body + Margin(compact, indent) + "}"
    ensures out == Print(OObj(done), compact, indent)
  {
  }

  lemma ArrayPrinted(done: Items, out: string, body: string, compact: bool, indent: int)
    requires body == PrintItems(done, compact, indent)
    requires out == "[" + NewLine(compact) + body + Margin(compact, indent) + "]"
    ensures out == Print(OArr(done), compact, indent)
  {
  }

  lemma NextItem(items: seq<Value>, i: nat)
    requires i < |items|
    ensures items[..i + 1] == items[..i] + [items[i]]
  {
  }

  lemma ArrayTree(done: Items, items: seq<Value>)
    requires ItemsInto(done, []) == items
    ensures Tree(OArr(done)) == Arr(items)
  {
  }
}
