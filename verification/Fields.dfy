/** Unknown fields of a contract mapping are rejected, the first one in byte order by name. */
module Fields {
  import opened ByteOrder
  import opened Parser
  import opened EditDistance

  datatype FieldCheck = FieldsKnown | NotAMapping | UnknownField(field: string, hint: string)

  /** The hint is the first nearest allowed name, or empty when none is within distance 3. */
  ghost predicate IsHint(field: string, allowed: seq<string>, hint: string) {
    if allowed == [] then hint == ""
    else exists k: nat :: FirstNearest(field, allowed, k) && hint == (if Distance(field, allowed[k]) > 3 then "" else allowed[k])
  }

  lemma LeastUnknown(keys: set<string>, allowed: seq<string>, i: nat)
    requires i < |SortedKeys(keys)| && forall k | k in SortedKeys(keys)[..i] :: k in allowed
    ensures forall k | k in keys && k !in allowed :: !Less(k, SortedKeys(keys)[i])
  {
    hide Less, Sorted, SortedKeys;
    forall k | k in keys && k !in allowed ensures !Less(k, SortedKeys(keys)[i]) {
      LaterKeysAreNotLess(keys, i, k);
    }
  }

  method RejectUnknownFields(node: Node, allowed: seq<string>) returns (r: FieldCheck)
    ensures r == NotAMapping <==> !node.MapNode?
    ensures r == FieldsKnown <==> node.MapNode? && forall k | k in node.entries :: k in allowed
    ensures r.UnknownField? ==>
              && r.field in node.entries && r.field !in allowed && IsHint(r.field, allowed, r.hint)
              && forall k | k in node.entries && k !in allowed :: !Less(k, r.field)
  {
    hide Distance, FirstNearest, Less, Sorted, SortedKeys;
    if !node.MapNode? { return NotAMapping; }
    var allowedSet := set field | field in allowed;
    var keys := CollectKeys(node.entries.Keys);
    var i := 0;
    while i < |keys|
      invariant 0 <= i <= |keys|
      invariant forall k | k in keys[..i] :: k in allowed
    {
      var field := keys[i];
      assert field in keys;
      if field !in allowedSet {
        var hint := NearestField(field, allowed);
        LeastUnknown(node.entries.Keys, allowed, i);
        return UnknownField(field, hint);
      }
      i := i + 1;
    }
    return FieldsKnown;
  }

  /** The hint is settled by the field and the allowed names. */
  lemma HintIsUnique(field: string, allowed: seq<string>, a: string, b: string)
    requires IsHint(field, allowed, a) && IsHint(field, allowed, b)
    ensures a == b
  {
    if allowed != [] {
      var j: nat :| FirstNearest(field, allowed, j) && a == if Distance(field, allowed[j]) > 3 then "" else allowed[j];
      var k: nat :| FirstNearest(field, allowed, k) && b == if Distance(field, allowed[k]) > 3 then "" else allowed[k];
      assert !(j < k) && !(k < j);
    }
  }
}
