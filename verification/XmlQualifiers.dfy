/**
 Scope qualifiers of XML mappings: a matched element is set aside when a declared qualifier path exists below its
 parent (backend/app/training/dsl.py:325-342).
 */
module XmlQualifiers {
  import opened Common

  /** An element, named by its place; `tag` is the local name. */
  datatype Element = Element(parent: Option<nat>, tag: string)

  predicate IsChild(ir: seq<Element>, c: nat, parent: nat, tag: string) {
    c < |ir| && ir[c].parent == Some(parent) && ir[c].tag == tag
  }

  /** Going down from `start`, one named child per segment, can end at `end`. */
  ghost predicate Leads(ir: seq<Element>, start: nat, path: seq<string>, end: nat)
    decreases |path|
  {
    if path == [] then start == end
    else exists c: nat :: IsChild(ir, c, start, path[0]) && Leads(ir, c, path[1..], end)
  }

  ghost predicate HasQualifier(ir: seq<Element>, node: nat, paths: seq<seq<string>>)
    requires node < |ir|
  {
    ir[node].parent.Some? && exists p, end: nat :: 0 <= p < |paths| && Leads(ir, ir[node].parent.value, paths[p], end)
  }

  lemma {:induction false} LeadsFurther(ir: seq<Element>, start: nat, path: seq<string>, segment: string, end: nat)
    ensures Leads(ir, start, path + [segment], end) <==>
        exists at: nat :: Leads(ir, start, path, at) && IsChild(ir, end, at, segment)
    decreases |path|
  {
    var all := path + [segment];
    if path == [] {
      assert all[1..] == [];
      if Leads(ir, start, all, end) {
        var c: nat :| IsChild(ir, c, start, all[0]) && Leads(ir, c, all[1..], end);
        assert Leads(ir, start, path, start);
      }
      if at: nat :| Leads(ir, start, path, at) && IsChild(ir, end, at, segment) {
        assert Leads(ir, end, all[1..], end);
      }
    } else {
      assert all[0] == path[0] && all[1..] == path[1..] + [segment];
      if Leads(ir, start, all, end) {
        var c: nat :| IsChild(ir, c, start, path[0]) && Leads(ir, c, all[1..], end);
        LeadsFurther(ir, c, path[1..], segment, end);
        var at: nat :| Leads(ir, c, path[1..], at) && IsChild(ir, end, at, segment);
        assert Leads(ir, start, path, at);
      }
      if at: nat :| Leads(ir, start, path, at) && IsChild(ir, end, at, segment) {
        var c: nat :| IsChild(ir, c, start, path[0]) && Leads(ir, c, path[1..], at);
        LeadsFurther(ir, c, path[1..], segment, end);
      }
    }
  }

  /** The frontier after each segment is everything the segments so far lead to. */
  method HasUnsupportedQualifier(ir: seq<Element>, node: nat, paths: seq<seq<string>>) returns (r: bool)
    requires node < |ir|
    ensures r <==> HasQualifier(ir, node, paths)
  {
    if paths == [] || ir[node].parent.None? {
      return false;
    }
    var parent: nat := ir[node].parent.value;
    for p := 0 to |paths|
      invariant forall q, end: nat :: 0 <= q < p ==> !Leads(ir, parent, paths[q], end)
    {
      var path := paths[p];
      var current: set<nat> := {parent};
      for i := 0 to |path|
        invariant forall end: nat :: end in current <==> Leads(ir, parent, path[..i], end)
      {
        ghost var before := current;
        assert path[..i + 1] == path[..i] + [path[i]];
        current := set c: nat | c < |ir| && ir[c].parent.Some? && ir[c].parent.value in current && ir[c].tag == path[i];
        forall end: nat ensures end in current <==> Leads(ir, parent, path[..i + 1], end) {
          LeadsFurther(ir, parent, path[..i], path[i], end);
          assert end in current <==> exists at: nat :: at in before && IsChild(ir, end, at, path[i]);
        }
      }
      assert path[..|path|] == path;
      if current != {} {
        var end :| end in current;
        assert Leads(ir, parent, paths[p], end);
        return true;
      }
    }
    return false;
  }

  /** The search starts at the parent, so a path that names the element itself always sets it aside. */
  lemma OwnTagQualifies(ir: seq<Element>, node: nat, paths: seq<seq<string>>)
    requires node < |ir| && ir[node].parent.Some? && [ir[node].tag] in paths
    ensures HasQualifier(ir, node, paths)
  {
    var p :| 0 <= p < |paths| && paths[p] == [ir[node].tag];
    assert paths[p][1..] == [];
    assert IsChild(ir, node, ir[node].parent.value, paths[p][0]) && Leads(ir, node, paths[p][1..], node);
    assert Leads(ir, ir[node].parent.value, paths[p], node);
  }
}
