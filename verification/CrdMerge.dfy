/** Adding newly generated properties to a shipped schema without tightening it. */
module CrdMerge {
  import opened Json

  // ---------- Schemas ----------

  /** A schema node; properties and required that are absent are empty. additional and preserve
      are additionalProperties and x-kubernetes-preserve-unknown-fields; rest is every other key.
      A node that is not a mapping says nothing. */
  datatype Schema =
    | NotAMap
    | Node(properties: map<string, Schema>, required: seq<string>, items: Option<Schema>,
           additional: Option<Schema>, preserve: bool, rest: Fields)

  /** strip_required: through properties and items, and nowhere else. */
  function Strip(s: Schema): Schema
  {
    match s
    case NotAMap => s
    case Node(properties, _, items, additional, preserve, rest) =>
      Node(map k | k in properties :: Strip(properties[k]), [],
           if items.Some? then Some(Strip(items.value)) else None,
           additional, preserve, rest)
  }

  /** merge: what the shipped schema becomes. */
  function Merge(shipped: Schema, generated: Schema): Schema
    decreases generated
  {
    if shipped.NotAMap? || generated.NotAMap? then shipped
    else
      shipped.(
        properties := map k | k in shipped.properties.Keys + generated.properties.Keys ::
          if k !in shipped.properties then Strip(generated.properties[k])
          else if k in generated.properties then Merge(shipped.properties[k], generated.properties[k])
          else shipped.properties[k],
        items :=
          if shipped.items.Some? && generated.items.Some? then Some(Merge(shipped.items.value, generated.items.value))
          else shipped.items)
  }

  /** The paths merge reports. */
  function Added(shipped: Schema, generated: Schema, path: string): set<string>
    decreases generated, 2
  {
    if shipped.NotAMap? || generated.NotAMap? then {}
    else
      AddedUnder(shipped, generated, path, generated.properties.Keys) +
      (if shipped.items.Some? && generated.items.Some?
       then Added(shipped.items.value, generated.items.value, path + "[]") else {})
  }

  /** Those below some of the generated properties. */
  function AddedUnder(shipped: Schema, generated: Schema, path: string, keys: set<string>): set<string>
    requires shipped.Node? && generated.Node?
    decreases generated, 1
  {
    set k, p | k in keys && k in generated.properties && p in AddedAt(shipped, generated, path, k) :: p
  }

  function AddedAt(shipped: Schema, generated: Schema, path: string, k: string): set<string>
    requires shipped.Node? && generated.Node? && k in generated.properties
    decreases generated, 0
  {
    if k !in shipped.properties then {path + "." + k}
    else Added(shipped.properties[k], generated.properties[k], path + "." + k)
  }

  // ---------- The recursion that edits the shipped schema ----------

  method StripRequired(s: Schema) returns (stripped: Schema)
    ensures stripped == Strip(s)
    decreases s
  {
    if s.NotAMap? {
      return s;
    }
    stripped := s.(required := []);
    var rest := s.properties.Keys;
    while rest != {}
      invariant rest <= s.properties.Keys && stripped.Node? && stripped == s.(required := [], properties := stripped.properties)
      invariant stripped.properties.Keys == s.properties.Keys
      invariant forall k | k in s.properties ::
        stripped.properties[k] == if k in rest then s.properties[k] else Strip(s.properties[k])
      decreases rest
    {
      var k :| k in rest;
      var child := StripRequired(s.properties[k]);
      stripped := stripped.(properties := stripped.properties[k := child]);
      rest := rest - {k};
    }
    if s.items.Some? {
      var items := StripRequired(s.items.value);
      stripped := stripped.(items := Some(items));
    }
  }

  /** The properties merged so far, those in rest still to come. */
  ghost predicate MergedBut(shipped: Schema, generated: Schema, rest: set<string>, properties: map<string, Schema>)
    requires shipped.Node? && generated.Node?
  {
    properties.Keys == shipped.properties.Keys + (generated.properties.Keys - rest) &&
    forall k | k in properties :: properties[k] ==
      if k in rest || k !in generated.properties then shipped.properties[k] else Merge(shipped, generated).properties[k]
  }

  function Elements(items: seq<string>): set<string> { set x | x in items }

  lemma ElementsAppend(a: seq<string>, b: seq<string>)
    ensures Elements(a + b) == Elements(a) + Elements(b)
  {
    assert forall x :: x in a + b <==> x in a || x in b;
  }

  lemma AddedUnderOneMore(shipped: Schema, generated: Schema, path: string, keys: set<string>, k: string)
    requires shipped.Node? && generated.Node? && k in generated.properties
    ensures AddedUnder(shipped, generated, path, keys + {k}) ==
      AddedUnder(shipped, generated, path, keys) + AddedAt(shipped, generated, path, k)
  {
    hide AddedAt;
  }

  method MergeProperty(shipped: Schema, generated: Schema, path: string, k: string) returns (child: Schema, added: seq<string>)
    requires shipped.Node? && generated.Node? && k in generated.properties
    ensures child == Merge(shipped, generated).properties[k]
    ensures Elements(added) == AddedAt(shipped, generated, path, k)
    decreases generated, 0
  {
    if k !in shipped.properties {
      child := StripRequired(generated.properties[k]);
      added := [path + "." + k];
    } else {
      child, added := MergeSchema(shipped.properties[k], generated.properties[k], path + "." + k);
    }
  }

  lemma MergedButExtends(
    shipped: Schema, generated: Schema, rest: set<string>, properties: map<string, Schema>, k: string, child: Schema)
    requires shipped.Node? && generated.Node? && k in rest && rest <= generated.properties.Keys
    requires MergedBut(shipped, generated, rest, properties) && child == Merge(shipped, generated).properties[k]
    ensures MergedBut(shipped, generated, rest - {k}, properties[k := child])
  {
    hide Merge;
  }

  lemma MergedButStarts(shipped: Schema, generated: Schema)
    requires shipped.Node? && generated.Node?
    ensures MergedBut(shipped, generated, generated.properties.Keys, shipped.properties)
  {}

  lemma MergedButEnds(shipped: Schema, generated: Schema, properties: map<string, Schema>)
    requires shipped.Node? && generated.Node? && MergedBut(shipped, generated, {}, properties)
    ensures properties == Merge(shipped, generated).properties
  {}

  /** The loop over the generated properties. */
  method MergeProperties(shipped: Schema, generated: Schema, path: string)
    returns (properties: map<string, Schema>, added: seq<string>)
    requires shipped.Node? && generated.Node?
    ensures properties == Merge(shipped, generated).properties
    ensures Elements(added) == AddedUnder(shipped, generated, path, generated.properties.Keys)
    decreases generated, 1
  {
    properties, added := shipped.properties, [];
    var rest := generated.properties.Keys;
    MergedButStarts(shipped, generated);
    assert Elements([]) == {} by { NoElements(); }
    hide Elements, AddedAt, AddedUnder, Merge, MergedBut;
    ghost var done: set<string> := {};
    assert AddedUnder(shipped, generated, path, {}) == {} by { NothingUnder(shipped, generated, path); }
    while rest != {}
      invariant rest <= generated.properties.Keys && done == generated.properties.Keys - rest
      invariant MergedBut(shipped, generated, rest, properties)
      invariant Elements(added) == AddedUnder(shipped, generated, path, done)
      decreases rest
    {
      var k :| k in rest;
      var child, paths := MergeProperty(shipped, generated, path, k);
      MergedButExtends(shipped, generated, rest, properties, k, child);
      AddedUnderOneMore(shipped, generated, path, done, k);
      ElementsAppend(added, paths);
      properties, added := properties[k := child], added + paths;
      rest, done := rest - {k}, done + {k};
    }
    assert done == generated.properties.Keys;
    MergedButEnds(shipped, generated, properties);
  }

  lemma NothingUnder(shipped: Schema, generated: Schema, path: string)
    requires shipped.Node? && generated.Node?
    ensures AddedUnder(shipped, generated, path, {}) == {}
  {}

  method MergeSchema(shipped: Schema, generated: Schema, path: string) returns (merged: Schema, added: seq<string>)
    ensures merged == Merge(shipped, generated)
    ensures Elements(added) == Added(shipped, generated, path)
    decreases generated, 2
  {
    if shipped.NotAMap? || generated.NotAMap? {
      return shipped, [];
    }
    hide Elements, AddedUnder;
    var properties;
    properties, added := MergeProperties(shipped, generated, path);
    merged := shipped.(properties := properties);
    if shipped.items.Some? && generated.items.Some? {
      var items, paths := MergeSchema(shipped.items.value, generated.items.value, path + "[]");
      merged := merged.(items := Some(items));
      ElementsAppend(added, paths);
      added := added + paths;
    }
  }

  lemma NoElements()
    ensures Elements([]) == {}
  {}

  // ---------- A second merge ----------

  /** Every generated property is shipped, as deep as both go. */
  ghost predicate UpToDate(shipped: Schema, generated: Schema)
    decreases generated
  {
    shipped.NotAMap? || generated.NotAMap? ||
    ((forall k | k in generated.properties ::
       k in shipped.properties && UpToDate(shipped.properties[k], generated.properties[k])) &&
     (shipped.items.Some? && generated.items.Some? ==> UpToDate(shipped.items.value, generated.items.value)))
  }

  lemma {:induction false} StripIsUpToDate(s: Schema)
    ensures UpToDate(Strip(s), s)
  {
    if s.Node? {
      forall k | k in s.properties ensures UpToDate(Strip(s).properties[k], s.properties[k]) {
        StripIsUpToDate(s.properties[k]);
      }
      if s.items.Some? { StripIsUpToDate(s.items.value); }
    }
  }

  lemma {:induction false} MergeIsUpToDate(shipped: Schema, generated: Schema)
    ensures UpToDate(Merge(shipped, generated), generated)
    decreases generated
  {
    if shipped.Node? && generated.Node? {
      var merged := Merge(shipped, generated);
      forall k | k in generated.properties ensures k in merged.properties && UpToDate(merged.properties[k], generated.properties[k]) {
        if k in shipped.properties {
          MergeIsUpToDate(shipped.properties[k], generated.properties[k]);
        } else {
          StripIsUpToDate(generated.properties[k]);
        }
      }
      if shipped.items.Some? && generated.items.Some? { MergeIsUpToDate(shipped.items.value, generated.items.value); }
    }
  }

  lemma {:induction false} UpToDateStays(shipped: Schema, generated: Schema, path: string)
    requires UpToDate(shipped, generated)
    ensures Merge(shipped, generated) == shipped && Added(shipped, generated, path) == {}
    decreases generated
  {
    if shipped.Node? && generated.Node? {
      forall k | k in generated.properties
        ensures Merge(shipped.properties[k], generated.properties[k]) == shipped.properties[k]
        ensures AddedAt(shipped, generated, path, k) == {}
      {
        UpToDateStays(shipped.properties[k], generated.properties[k], path + "." + k);
      }
      if shipped.items.Some? && generated.items.Some? {
        UpToDateStays(shipped.items.value, generated.items.value, path + "[]");
      }
      assert Merge(shipped, generated).properties == shipped.properties;
      assert AddedUnder(shipped, generated, path, generated.properties.Keys) == {};
    }
  }

  /** A second merge changes nothing and reports nothing. */
  lemma MergeIsIdempotent(shipped: Schema, generated: Schema, path: string)
    ensures Merge(Merge(shipped, generated), generated) == Merge(shipped, generated)
    ensures Added(Merge(shipped, generated), generated, path) == {}
  {
    MergeIsUpToDate(shipped, generated);
    UpToDateStays(Merge(shipped, generated), generated, path);
  }

  // ---------- Requirements ----------

  datatype Hop = Property(name: string) | Items

  /** The required list at the end of a path through properties and items. */
  function RequiredAt(s: Schema, path: seq<Hop>): seq<string>
  {
    if s.NotAMap? then []
    else if path == [] then s.required
    else match path[0]
      case Property(k) => if k in s.properties then RequiredAt(s.properties[k], path[1..]) else []
      case Items => if s.items.Some? then RequiredAt(s.items.value, path[1..]) else []
  }

  lemma {:induction false} StripRequiresNothing(s: Schema, path: seq<Hop>)
    ensures RequiredAt(Strip(s), path) == []
    decreases |path|
  {
    if s.Node? && path != [] {
      match path[0]
      case Property(k) => if k in s.properties { StripRequiresNothing(s.properties[k], path[1..]); }
      case Items => if s.items.Some? { StripRequiresNothing(s.items.value, path[1..]); }
    }
  }

  /** Wherever properties and items lead, the merged schema requires what the shipped one did:
      nothing more, and nothing less. */
  lemma {:induction false} RequirementsStay(shipped: Schema, generated: Schema, path: seq<Hop>)
    ensures RequiredAt(Merge(shipped, generated), path) == RequiredAt(shipped, path)
    decreases |path|
  {
    if shipped.Node? && generated.Node? && path != [] {
      match path[0]
      case Property(k) =>
        if k in shipped.properties && k in generated.properties {
          RequirementsStay(shipped.properties[k], generated.properties[k], path[1..]);
        } else if k in generated.properties {
          StripRequiresNothing(generated.properties[k], path[1..]);
        }
      case Items =>
        if shipped.items.Some? && generated.items.Some? {
          RequirementsStay(shipped.items.value, generated.items.value, path[1..]);
        }
    }
  }

  // ---------- Pruning and validation of documents ----------

  /** What is kept of a document where no schema node says anything. */
  function PruneAll(doc: Value): Value
  {
    match doc
    case Dict(_) => Dict(map[])
    case List(items) => List(seq(|items|, i requires 0 <= i < |items| => PruneAll(items[i])))
    case _ => doc
  }

  /** The fields the server keeps: those with a property, those an additional schema takes, and
      any others where unknown fields are preserved. */
  function Prune(s: Schema, doc: Value): Value
    decreases doc
  {
    if s.NotAMap? then PruneAll(doc)
    else match doc
      case Dict(f) =>
        Dict(map k | k in f && (k in s.properties || s.additional.Some? || s.preserve) ::
          if k in s.properties then Prune(s.properties[k], f[k])
          else if s.additional.Some? then Prune(s.additional.value, f[k])
          else f[k])
      case List(items) =>
        List(seq(|items|, i requires 0 <= i < |items| =>
          if s.items.Some? then Prune(s.items.value, items[i]) else PruneAll(items[i])))
      case _ => doc
  }

  /** check stands for everything a node demands of a document by itself: its type, bounds,
      patterns. */
  ghost predicate Accepts(s: Schema, doc: Value, check: (Fields, Value) -> bool)
    decreases doc
  {
    s.NotAMap? ||
    (check(s.rest, doc) &&
     match doc
     case Dict(f) =>
       (forall r | r in s.required :: r in f) &&
       forall k | k in f ::
         if k in s.properties then Accepts(s.properties[k], f[k], check)
         else if s.additional.Some? then Accepts(s.additional.value, f[k], check)
         else true
     case List(items) => s.items.Some? ==> forall i | 0 <= i < |items| :: Accepts(s.items.value, items[i], check)
     case _ => true)
  }

  /** A node that takes fields it has no property for. */
  predicate Open(s: Schema) { s.Node? && (s.preserve || s.additional.Some?) }

  /** No open node gains a property. */
  ghost predicate GainsAreClosed(shipped: Schema, generated: Schema)
    decreases generated
  {
    shipped.NotAMap? || generated.NotAMap? ||
    ((Open(shipped) ==> generated.properties.Keys <= shipped.properties.Keys) &&
     (forall k | k in generated.properties && k in shipped.properties ::
       GainsAreClosed(shipped.properties[k], generated.properties[k])) &&
     (shipped.items.Some? && generated.items.Some? ==> GainsAreClosed(shipped.items.value, generated.items.value)))
  }

  /** Every field of the document is one the schema keeps. */
  ghost predicate Pruned(s: Schema, doc: Value)
    decreases doc
  {
    s.NotAMap? ||
    match doc
    case Dict(f) =>
      forall k | k in f ::
        (k in s.properties || Open(s)) && (k in s.properties ==> Pruned(s.properties[k], f[k])) &&
        (k !in s.properties && s.additional.Some? ==> Pruned(s.additional.value, f[k]))
    case List(items) => s.items.Some? ==> forall i | 0 <= i < |items| :: Pruned(s.items.value, items[i])
    case _ => true
  }

  lemma {:induction false} PruneIsPruned(s: Schema, doc: Value)
    ensures Pruned(s, Prune(s, doc))
    decreases doc
  {
    if s.Node? {
      match doc
      case Dict(f) =>
        forall k | k in f
          ensures k in s.properties ==> Pruned(s.properties[k], Prune(s.properties[k], f[k]))
          ensures s.additional.Some? ==> Pruned(s.additional.value, Prune(s.additional.value, f[k]))
        {
          if k in s.properties { PruneIsPruned(s.properties[k], f[k]); }
          if s.additional.Some? { PruneIsPruned(s.additional.value, f[k]); }
        }
      case List(items) =>
        if s.items.Some? {
          forall i | 0 <= i < |items| ensures Pruned(s.items.value, Prune(s.items.value, items[i])) {
            PruneIsPruned(s.items.value, items[i]);
          }
        }
      case _ =>
    }
  }

  /** Where the document holds a field under a name its node gains, the generated property, its
      requirements stripped, accepts the field. */
  ghost predicate GainsAccept(shipped: Schema, generated: Schema, doc: Value, check: (Fields, Value) -> bool)
    decreases doc
  {
    shipped.NotAMap? || generated.NotAMap? ||
    match doc
    case Dict(f) =>
      forall k | k in f && k in generated.properties ::
        if k in shipped.properties then GainsAccept(shipped.properties[k], generated.properties[k], f[k], check)
        else Accepts(Strip(generated.properties[k]), f[k], check)
    case List(items) =>
      shipped.items.Some? && generated.items.Some? ==>
        forall i | 0 <= i < |items| :: GainsAccept(shipped.items.value, generated.items.value, items[i], check)
    case _ => true
  }

  /** A document the shipped schema accepts is accepted by the merged one, if and only if the
      gained properties accept the fields it holds under their names. */
  lemma {:induction false} AcceptedExactly(shipped: Schema, generated: Schema, doc: Value, check: (Fields, Value) -> bool)
    requires Accepts(shipped, doc, check)
    ensures Accepts(Merge(shipped, generated), doc, check) <==>
      GainsAccept(shipped, generated, doc, check)
    decreases doc
  {
    if shipped.Node? && generated.Node? {
      var merged := Merge(shipped, generated);
      match doc
      case Dict(f) =>
        forall k | k in f && k in shipped.properties && k in generated.properties
          ensures Accepts(merged.properties[k], f[k], check) <==>
            GainsAccept(shipped.properties[k], generated.properties[k], f[k], check)
        {
          AcceptedExactly(shipped.properties[k], generated.properties[k], f[k], check);
        }
        forall k | k in f && k !in shipped.properties && k in generated.properties
          ensures merged.properties[k] == Strip(generated.properties[k]) {}
      case List(items) =>
        if shipped.items.Some? && generated.items.Some? {
          forall i | 0 <= i < |items|
            ensures Accepts(merged.items.value, items[i], check) <==>
              GainsAccept(shipped.items.value, generated.items.value, items[i], check)
          {
            AcceptedExactly(shipped.items.value, generated.items.value, items[i], check);
          }
        }
      case _ =>
    }
  }

  /** What the shipped schema keeps holds nothing under a gained name, when no open node gains. */
  lemma {:induction false} ClosedGainsMeetNothing(shipped: Schema, generated: Schema, doc: Value, check: (Fields, Value) -> bool)
    requires Pruned(shipped, doc) && GainsAreClosed(shipped, generated)
    ensures GainsAccept(shipped, generated, doc, check)
    decreases doc
  {
    if shipped.Node? && generated.Node? {
      match doc
      case Dict(f) =>
        forall k | k in f && k in generated.properties
          ensures k in shipped.properties && GainsAccept(shipped.properties[k], generated.properties[k], f[k], check)
        {
          ClosedGainsMeetNothing(shipped.properties[k], generated.properties[k], f[k], check);
        }
      case List(items) =>
        if shipped.items.Some? && generated.items.Some? {
          forall i | 0 <= i < |items|
            ensures GainsAccept(shipped.items.value, generated.items.value, items[i], check)
          {
            ClosedGainsMeetNothing(shipped.items.value, generated.items.value, items[i], check);
          }
        }
      case _ =>
    }
  }

  /** Backward compatibility: whatever the shipped schema accepts of what it keeps, the merged
      one accepts, when no open node gains a property. */
  lemma MergeIsBackwardCompatible(shipped: Schema, generated: Schema, doc: Value, check: (Fields, Value) -> bool)
    requires GainsAreClosed(shipped, generated) && Accepts(shipped, Prune(shipped, doc), check)
    ensures Accepts(Merge(shipped, generated), Prune(shipped, doc), check)
  {
    PruneIsPruned(shipped, doc);
    ClosedGainsMeetNothing(shipped, generated, Prune(shipped, doc), check);
    AcceptedExactly(shipped, generated, Prune(shipped, doc), check);
  }

  /** An open node that gains a property can come to reject what it accepted: a field it took
      before is now held to the generated schema. */
  lemma OpenGainCanReject()
    ensures var shipped := Node(map[], [], None, None, true, map[]);
      var generated := Node(map["a" := Node(map[], [], None, None, false, map["type" := Text("string")])], [], None, None, false, map[]);
      var check := (rest: Fields, doc: Value) => "type" in rest ==> doc.Text?;
      var doc := Dict(map["a" := Number(1)]);
      Prune(shipped, doc) == doc && Accepts(shipped, doc, check) && !Accepts(Merge(shipped, generated), doc, check)
  {
    var shipped := Node(map[], [], None, None, true, map[]);
    var leaf := Node(map[], [], None, None, false, map["type" := Text("string")]);
    var generated := Node(map["a" := leaf], [], None, None, false, map[]);
    var check := (rest: Fields, doc: Value) => "type" in rest ==> doc.Text?;
    var doc := Dict(map["a" := Number(1)]);
    assert Merge(shipped, generated).properties["a"] == Strip(leaf);
    assert "type" in Strip(leaf).rest;
    assert !check(Strip(leaf).rest, Number(1));
    assert !Accepts(Strip(leaf), Number(1), check);
  }

  // ---------- Nothing the generated schema keeps is lost ----------

  /** What a holds, b holds too. */
  ghost predicate Within(a: Value, b: Value)
    decreases a
  {
    match a
    case Dict(f) => b.Dict? && forall k | k in f :: k in b.fields && Within(f[k], b.fields[k])
    case List(xs) => b.List? && |xs| == |b.items| && forall i | 0 <= i < |xs| :: Within(xs[i], b.items[i])
    case _ => a == b
  }

  lemma {:induction false} WithinItself(a: Value)
    ensures Within(a, a)
  {
    match a
    case Dict(f) => forall k | k in f ensures Within(f[k], f[k]) { WithinItself(f[k]); }
    case List(xs) => forall i | 0 <= i < |xs| ensures Within(xs[i], xs[i]) { WithinItself(xs[i]); }
    case _ =>
  }

  /** Whether a node keeps a field of this name, and what it keeps of it. */
  predicate Keeps(s: Schema, k: string) { s.Node? && (k in s.properties || Open(s)) }

  function Kept(s: Schema, k: string, v: Value): Value
    requires Keeps(s, k)
  {
    if k in s.properties then Prune(s.properties[k], v)
    else if s.additional.Some? then Prune(s.additional.value, v)
    else v
  }

  /** Wherever the merge does not reach, because the generated node has no property of that name
      or the shipped one no items, the shipped schema by itself keeps what the generated keeps. */
  ghost predicate MissesNothing(shipped: Schema, generated: Schema, doc: Value)
    decreases doc
  {
    if generated.NotAMap? then true
    else if shipped.NotAMap? then Within(Prune(generated, doc), PruneAll(doc))
    else match doc
      case Dict(f) =>
        forall k | k in f && Keeps(generated, k) ::
          if k !in generated.properties then Keeps(shipped, k) && Within(Kept(generated, k, f[k]), Kept(shipped, k, f[k]))
          else k in shipped.properties ==> MissesNothing(shipped.properties[k], generated.properties[k], f[k])
      case List(items) =>
        generated.items.Some? ==> forall i | 0 <= i < |items| ::
          if shipped.items.Some? then MissesNothing(shipped.items.value, generated.items.value, items[i])
          else Within(Prune(generated.items.value, items[i]), PruneAll(items[i]))
      case _ => true
  }

  lemma {:induction false} NothingSaysLeast(s: Schema, doc: Value)
    ensures Within(PruneAll(doc), Prune(s, doc))
    decreases doc
  {
    if s.NotAMap? {
      WithinItself(PruneAll(doc));
    } else {
      match doc
      case List(items) =>
        forall i | 0 <= i < |items|
          ensures Within(PruneAll(items[i]), if s.items.Some? then Prune(s.items.value, items[i]) else PruneAll(items[i]))
        {
          if s.items.Some? { NothingSaysLeast(s.items.value, items[i]); } else { WithinItself(PruneAll(items[i])); }
        }
      case _ =>
    }
  }

  lemma {:induction false} StripPrunesAlike(s: Schema, doc: Value)
    ensures Prune(Strip(s), doc) == Prune(s, doc)
    decreases doc
  {
    if s.Node? {
      match doc
      case Dict(f) =>
        forall k | k in f && k in s.properties ensures Prune(Strip(s).properties[k], f[k]) == Prune(s.properties[k], f[k]) {
          StripPrunesAlike(s.properties[k], f[k]);
        }
      case List(items) =>
        if s.items.Some? {
          forall i | 0 <= i < |items| ensures Prune(Strip(s).items.value, items[i]) == Prune(s.items.value, items[i]) {
            StripPrunesAlike(s.items.value, items[i]);
          }
        }
      case _ =>
    }
  }

  /** Pruning by the merged schema keeps all that pruning by the generated one keeps of a document,
      if and only if the shipped one misses nothing of it where the merge does not reach. */
  lemma {:induction false} KeptExactly(shipped: Schema, generated: Schema, doc: Value)
    ensures Within(Prune(generated, doc), Prune(Merge(shipped, generated), doc)) <==> MissesNothing(shipped, generated, doc)
    decreases doc
  {
    if generated.NotAMap? {
      NothingSaysLeast(shipped, doc);
    } else if shipped.Node? {
      match doc
      case Dict(f) => FieldsKeptExactly(shipped, generated, f, doc);
      case List(items) => ItemsKeptExactly(shipped, generated, items, doc);
      case _ =>
    }
  }

  lemma {:induction false} FieldsKeptExactly(shipped: Schema, generated: Schema, f: Fields, doc: Value)
    requires doc == Dict(f) && shipped.Node? && generated.Node?
    ensures Within(Prune(generated, doc), Prune(Merge(shipped, generated), doc)) <==> MissesNothing(shipped, generated, doc)
    decreases doc, 0
  {
    var merged := Merge(shipped, generated);
    forall k | k in f && Keeps(generated, k)
      ensures (Keeps(merged, k) && Within(Kept(generated, k, f[k]), Kept(merged, k, f[k]))) <==>
        if k !in generated.properties then Keeps(shipped, k) && Within(Kept(generated, k, f[k]), Kept(shipped, k, f[k]))
        else k in shipped.properties ==> MissesNothing(shipped.properties[k], generated.properties[k], f[k])
    {
      if k in shipped.properties && k in generated.properties {
        KeptExactly(shipped.properties[k], generated.properties[k], f[k]);
      } else if k in generated.properties {
        StripPrunesAlike(generated.properties[k], f[k]);
        WithinItself(Prune(generated.properties[k], f[k]));
      }
    }
    FieldsWithin(generated, merged, f);
    hide Kept, Prune, Merge, Keeps, Within;
  }

  /** Field by field. */
  lemma FieldsWithin(g: Schema, s: Schema, f: Fields)
    requires g.Node? && s.Node?
    ensures Within(Prune(g, Dict(f)), Prune(s, Dict(f))) <==>
      forall k | k in f && Keeps(g, k) :: Keeps(s, k) && Within(Kept(g, k, f[k]), Kept(s, k, f[k]))
  {
    var small, large := Prune(g, Dict(f)).fields, Prune(s, Dict(f)).fields;
    assert forall k | k in f :: (k in small <==> Keeps(g, k)) && (k in large <==> Keeps(s, k));
    assert forall k | k in small :: k in f && small[k] == Kept(g, k, f[k]);
    assert forall k | k in large :: k in f && large[k] == Kept(s, k, f[k]);
    hide Keeps, Kept;
  }

  lemma {:induction false} ItemsKeptExactly(shipped: Schema, generated: Schema, items: seq<Value>, doc: Value)
    requires doc == List(items) && shipped.Node? && generated.Node?
    ensures Within(Prune(generated, doc), Prune(Merge(shipped, generated), doc)) <==> MissesNothing(shipped, generated, doc)
    decreases doc, 0
  {
    var merged := Merge(shipped, generated);
    forall i | 0 <= i < |items|
      ensures Within(Prune(generated, doc).items[i], Prune(merged, doc).items[i]) <==>
        (generated.items.Some? ==>
          if shipped.items.Some? then MissesNothing(shipped.items.value, generated.items.value, items[i])
          else Within(Prune(generated.items.value, items[i]), PruneAll(items[i])))
    {
      if generated.items.None? {
        if shipped.items.Some? { NothingSaysLeast(shipped.items.value, items[i]); } else { WithinItself(PruneAll(items[i])); }
      } else if shipped.items.Some? {
        KeptExactly(shipped.items.value, generated.items.value, items[i]);
      }
    }
  }

  // ---------- Schemas whose merge loses nothing of any document ----------

  /** What one open node keeps of a field without a property, another keeps too. */
  ghost predicate OpenWider(s: Schema, g: Schema)
    requires s.Node? && g.Node?
    decreases g, 0
  {
    Open(g) ==>
      (forall k | k in s.properties && k !in g.properties :: g.additional.Some? && Wider(s.properties[k], g.additional.value)) &&
      if g.additional.Some? && s.additional.Some? then Wider(s.additional.value, g.additional.value)
      else s.additional.None? && s.preserve
  }

  /** Node by node, one schema keeps at least what another does. */
  ghost predicate Wider(s: Schema, g: Schema)
    decreases g, 1
  {
    g.NotAMap? ||
    (s.Node? && OpenWider(s, g) &&
     (forall k | k in g.properties :: k in s.properties && Wider(s.properties[k], g.properties[k])) &&
     (g.items.Some? ==> s.items.Some? && Wider(s.items.value, g.items.value)))
  }

  /** A node for lists only, that says something of unknown fields all the same. */
  predicate OpenList(s: Schema) { Open(s) && "type" in s.rest && s.rest["type"] == Text("array") }

  /** Where both have a node, the shipped one has items if the generated one does, and is as wide
      as the generated one in what fields without a property it takes. */
  ghost predicate Covers(shipped: Schema, generated: Schema)
    decreases generated
  {
    generated.NotAMap? ||
    (shipped.Node? && (generated.items.Some? ==> shipped.items.Some?) &&
     (!OpenList(generated) ==> OpenWider(shipped, generated)) &&
     (forall k | k in generated.properties && k in shipped.properties ::
       Covers(shipped.properties[k], generated.properties[k])) &&
     (generated.items.Some? ==> Covers(shipped.items.value, generated.items.value)))
  }

  /** No mapping stands where the generated schema has an open node for lists. */
  ghost predicate ListsAreLists(generated: Schema, doc: Value)
    decreases doc
  {
    generated.NotAMap? ||
    match doc
    case Dict(f) =>
      !OpenList(generated) &&
      forall k | k in f && k in generated.properties :: ListsAreLists(generated.properties[k], f[k])
    case List(items) =>
      generated.items.Some? ==> forall i | 0 <= i < |items| :: ListsAreLists(generated.items.value, items[i])
    case _ => true
  }

  lemma {:induction false} PrunedIsWithin(s: Schema, doc: Value)
    ensures Within(Prune(s, doc), doc)
    decreases doc
  {
    match doc
    case Dict(f) =>
      if s.Node? {
        forall k | k in f && Keeps(s, k) ensures Within(Kept(s, k, f[k]), f[k]) {
          if k in s.properties {
            PrunedIsWithin(s.properties[k], f[k]);
          } else if s.additional.Some? {
            PrunedIsWithin(s.additional.value, f[k]);
          } else {
            WithinItself(f[k]);
          }
        }
      }
    case List(items) =>
      forall i | 0 <= i < |items| ensures Within(Prune(s, doc).items[i], items[i]) {
        PrunedIsWithin(if s.Node? && s.items.Some? then s.items.value else NotAMap, items[i]);
      }
    case _ =>
  }

  lemma {:induction false} WiderKeeps(s: Schema, g: Schema, doc: Value)
    requires Wider(s, g)
    ensures Within(Prune(g, doc), Prune(s, doc))
    decreases doc, 1
  {
    if g.NotAMap? {
      NothingSaysLeast(s, doc);
    } else {
      match doc
      case Dict(f) =>
        forall k | k in f && Keeps(g, k) ensures Keeps(s, k) && Within(Kept(g, k, f[k]), Kept(s, k, f[k])) {
          if k in g.properties { WiderKeeps(s.properties[k], g.properties[k], f[k]); } else { OpenWiderKeeps(s, g, k, f[k]); }
        }
      case List(items) =>
        forall i | 0 <= i < |items| ensures Within(Prune(g, doc).items[i], Prune(s, doc).items[i]) {
          if g.items.Some? {
            WiderKeeps(s.items.value, g.items.value, items[i]);
          } else {
            NothingSaysLeast(if s.items.Some? then s.items.value else NotAMap, items[i]);
          }
        }
      case _ =>
    }
  }

  lemma {:induction false} OpenWiderKeeps(s: Schema, g: Schema, k: string, v: Value)
    requires s.Node? && g.Node? && OpenWider(s, g) && Open(g) && k !in g.properties
    ensures Keeps(s, k) && Within(Kept(g, k, v), Kept(s, k, v))
    decreases v, 2
  {
    if k in s.properties {
      WiderKeeps(s.properties[k], g.additional.value, v);
    } else if s.additional.Some? {
      WiderKeeps(s.additional.value, g.additional.value, v);
    } else if g.additional.Some? {
      PrunedIsWithin(g.additional.value, v);
    } else {
      WithinItself(v);
    }
  }

  lemma {:induction false} CoveredMissesNothing(shipped: Schema, generated: Schema, doc: Value)
    requires Covers(shipped, generated) && ListsAreLists(generated, doc)
    ensures MissesNothing(shipped, generated, doc)
    decreases doc
  {
    if generated.Node? {
      match doc
      case Dict(f) =>
        forall k | k in f && Keeps(generated, k)
          ensures k !in generated.properties ==> Keeps(shipped, k) && Within(Kept(generated, k, f[k]), Kept(shipped, k, f[k]))
          ensures k in generated.properties && k in shipped.properties ==>
            MissesNothing(shipped.properties[k], generated.properties[k], f[k])
        {
          if k !in generated.properties {
            OpenWiderKeeps(shipped, generated, k, f[k]);
          } else if k in shipped.properties {
            CoveredMissesNothing(shipped.properties[k], generated.properties[k], f[k]);
          }
        }
      case List(items) =>
        if generated.items.Some? {
          forall i | 0 <= i < |items| ensures MissesNothing(shipped.items.value, generated.items.value, items[i]) {
            CoveredMissesNothing(shipped.items.value, generated.items.value, items[i]);
          }
        }
      case _ =>
    }
  }

  /** Pruning by the merged schema keeps all that pruning by the generated one keeps. */
  lemma MergedKeepsWhatGeneratedKeeps(shipped: Schema, generated: Schema, doc: Value)
    requires Covers(shipped, generated) && ListsAreLists(generated, doc)
    ensures Within(Prune(generated, doc), Prune(Merge(shipped, generated), doc))
  {
    CoveredMissesNothing(shipped, generated, doc);
    KeptExactly(shipped, generated, doc);
  }

  /** A generated node that takes unknown fields, where the shipped one takes none, passes nothing
      of that on: the merge copies properties only, and such a field is lost. */
  lemma OpennessIsNotMerged(k: string, v: Value)
    ensures var shipped := Node(map[], [], None, None, false, map[]);
      var generated := Node(map[], [], None, None, true, map[]);
      var doc := Dict(map[k := v]);
      Prune(generated, doc) == doc && !Within(doc, Prune(Merge(shipped, generated), doc))
  {
    var shipped := Node(map[], [], None, None, false, map[]);
    var generated := Node(map[], [], None, None, true, map[]);
    var doc := Dict(map[k := v]);
    assert k in doc.fields && !Keeps(shipped, k) && Keeps(generated, k);
    KeptExactly(shipped, generated, doc);
  }

  // ---------- What is added, and what stripping leaves ----------

  /** The node at the end of a path through properties and items, if the path leads to one. */
  function NodeAt(s: Schema, path: seq<Hop>): (r: Option<Schema>)
    ensures r.Some? ==> r.value.Node?
  {
    if s.NotAMap? then None
    else if path == [] then Some(s)
    else match path[0]
      case Property(k) => if k in s.properties then NodeAt(s.properties[k], path[1..]) else None
      case Items => if s.items.Some? then NodeAt(s.items.value, path[1..]) else None
  }

  /** How the script writes a path. */
  function Shown(path: seq<Hop>): string
  {
    if path == [] then "" else (match path[0] case Property(k) => "." + k case Items => "[]") + Shown(path[1..])
  }

  /** Both schemas have a node there, and only the generated one has the property. */
  predicate Gains(shipped: Schema, generated: Schema, path: seq<Hop>, k: string)
  {
    var s, g := NodeAt(shipped, path), NodeAt(generated, path);
    s.Some? && g.Some? && k !in s.value.properties && k in g.value.properties
  }

  lemma {:induction false} GainIsReported(shipped: Schema, generated: Schema, path: string, hops: seq<Hop>, k: string)
    requires Gains(shipped, generated, hops, k)
    ensures path + Shown(hops) + "." + k in Added(shipped, generated, path)
    decreases |hops|
  {
    if hops == [] {
      assert path + "." + k in AddedAt(shipped, generated, path, k);
      assert path + Shown(hops) == path;
    } else {
      var rest := hops[1..];
      match hops[0]
      case Property(j) =>
        GainIsReported(shipped.properties[j], generated.properties[j], path + "." + j, rest, k);
        assert path + "." + j + Shown(rest) + "." + k in AddedAt(shipped, generated, path, j);
        assert path + Shown(hops) + "." + k == path + "." + j + Shown(rest) + "." + k;
      case Items =>
        GainIsReported(shipped.items.value, generated.items.value, path + "[]", rest, k);
        assert path + Shown(hops) + "." + k == path + "[]" + Shown(rest) + "." + k;
    }
  }

  lemma {:induction false} ReportIsAGain(shipped: Schema, generated: Schema, path: string, p: string)
    returns (hops: seq<Hop>, k: string)
    requires p in Added(shipped, generated, path)
    ensures Gains(shipped, generated, hops, k) && p == path + Shown(hops) + "." + k
    decreases generated, 1
  {
    if p in AddedUnder(shipped, generated, path, generated.properties.Keys) {
      var j :| j in generated.properties && p in AddedAt(shipped, generated, path, j);
      if j !in shipped.properties {
        hops, k := [], j;
        assert path + "" == path;
      } else {
        var rest;
        rest, k := ReportIsAGain(shipped.properties[j], generated.properties[j], path + "." + j, p);
        hops := [Property(j)] + rest;
        assert hops[1..] == rest;
        assert path + Shown(hops) + "." + k == path + "." + j + Shown(rest) + "." + k;
      }
    } else {
      var rest;
      rest, k := ReportIsAGain(shipped.items.value, generated.items.value, path + "[]", p);
      hops := [Items] + rest;
      assert hops[1..] == rest;
      assert path + Shown(hops) + "." + k == path + "[]" + Shown(rest) + "." + k;
    }
  }

  /** The script reports exactly the properties that a node of both schemas gains. */
  lemma AddedExactly(shipped: Schema, generated: Schema, path: string, p: string)
    ensures p in Added(shipped, generated, path) <==>
      exists hops, k :: Gains(shipped, generated, hops, k) && p == path + Shown(hops) + "." + k
  {
    if p in Added(shipped, generated, path) {
      var hops, k := ReportIsAGain(shipped, generated, path, p);
    }
    if hops, k :| Gains(shipped, generated, hops, k) && p == path + Shown(hops) + "." + k {
      GainIsReported(shipped, generated, path, hops, k);
    }
    hide Added, Gains;
  }

  /** Nothing of a node but its properties, its required list and its items. */
  function Own(s: Schema): Schema
    requires s.Node?
  {
    s.(properties := map[], required := [], items := None)
  }

  /** Stripping empties required lists and touches nothing else: the same paths lead to nodes, with the
      same properties and everything else. */
  lemma {:induction false} StripKeepsTheRest(s: Schema, path: seq<Hop>)
    ensures NodeAt(Strip(s), path).Some? <==> NodeAt(s, path).Some?
    ensures NodeAt(s, path).Some? ==>
      var was, now := NodeAt(s, path).value, NodeAt(Strip(s), path).value;
      Own(was) == Own(now) && was.properties.Keys == now.properties.Keys && now.required == [] &&
      (was.items.Some? <==> now.items.Some?)
    decreases |path|
  {
    if s.Node? && path != [] {
      match path[0]
      case Property(k) => if k in s.properties { StripKeepsTheRest(s.properties[k], path[1..]); }
      case Items => if s.items.Some? { StripKeepsTheRest(s.items.value, path[1..]); }
    }
  }

  /** Merging changes nothing of a shipped node but the properties it gains; what it gains is the
      generated property, stripped. */
  lemma {:induction false} MergeKeepsTheRest(shipped: Schema, generated: Schema, path: seq<Hop>)
    requires NodeAt(shipped, path).Some?
    ensures NodeAt(Merge(shipped, generated), path).Some?
    ensures var was, given, now := NodeAt(shipped, path).value, NodeAt(generated, path), NodeAt(Merge(shipped, generated), path).value;
      Own(was) == Own(now) && was.required == now.required && (was.items.Some? <==> now.items.Some?) &&
      now.properties.Keys == was.properties.Keys + (if given.Some? then given.value.properties.Keys else {}) &&
      forall k | k in now.properties && k !in was.properties :: now.properties[k] == Strip(given.value.properties[k])
    decreases |path|
  {
    if shipped.Node? && generated.Node? && path != [] {
      match path[0]
      case Property(k) =>
        if k in generated.properties { MergeKeepsTheRest(shipped.properties[k], generated.properties[k], path[1..]); }
      case Items =>
        if generated.items.Some? { MergeKeepsTheRest(shipped.items.value, generated.items.value, path[1..]); }
    }
    hide Strip;
  }
}
