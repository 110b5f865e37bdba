/** The round trip of the nodes: the text of a node, whatever the order its maps were iterated in, read by a fresh node. */
module JsonNodeRoundTrip {
  import opened Texts
  import opened JsonReader
  import opened JsonPrinter
  import opened JsonRoundTrip
  import opened JsonNodes

  /** A text that an object node may print is read back to its end as the same tree if and only if the tree survives. */
  lemma PrintedObjectIsRead(out: string, m: map<string, Value>, compact: bool, indent: int)
    requires Printed(out, Obj(m), compact, indent)
    ensures ParseObject(out, 0) == Read(Some(|out|), m) <==> Within(Obj(m), DURABLE)
  {
    hide ParseObject, Distinct, Faithful, Within;
    var o := OrderOf(out, Obj(m), compact, indent);
    ObjectRoundTrip(o, compact, indent);
    FaithfulIsDurable(o);
  }

  lemma PrintedArrayIsRead(out: string, items: seq<Value>, compact: bool, indent: int)
    requires Printed(out, Arr(items), compact, indent)
    ensures ParseArray(out, 0) == Read(Some(|out|), items) <==> Within(Arr(items), DURABLE)
  {
    hide ParseArray, Distinct, Faithful, Within;
    var o := OrderOf(out, Arr(items), compact, indent);
    ArrayRoundTrip(o, compact, indent);
    FaithfulIsDurable(o);
  }

  /** Printing an object node and building a node from the text gives a valid node, valid at all depths,
      with the same tree and no node in common, for every object whose tree survives. */
  method Copied(node: JsonNode, compact: bool, indent: int) returns (copy: JsonNode)
    requires node.Valid() && node.element == Object && Within(node.tree, DURABLE)
    ensures fresh(copy.repr) && copy.Valid() && copy.valid && copy.SoundBelow() && copy.tree == node.tree
  {
    hide ParseObject, Within, Printed;
    var out := node.Serialize(compact, indent);
    copy := new JsonNode.ObjectFrom(out);
    PrintedObjectIsRead(out, node.tree.members, compact, indent);
  }
}
