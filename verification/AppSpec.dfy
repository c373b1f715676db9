/** The part of an app's spec that decides which image each environment runs: how the API
    edits it and how the operator reads it. */
module AppSpec {
  import opened Json
  import opened Text

  // ---------- Editing an environment's tag ----------

  function Environments(spec: Fields): seq<Value> { GetList(spec, "environments") }

  predicate IsNamed(v: Value, env: string) { v.Dict? && GetString(v.fields, "name") == env }

  predicate HasEntry(envs: seq<Value>, env: string) { exists v | v in envs :: IsNamed(v, env) }

  /** appHasEnvironment also takes an environment listed as a bare string. */
  predicate HasEnvironment(spec: Fields, env: string)
  {
    HasEntry(Environments(spec), env) || Text(env) in Environments(spec)
  }

  function ImageOf(fields: Fields): Fields { OrEmpty(GetDict(fields, "image")) }

  function WithTag(v: Value, tag: string): Value
    requires v.Dict?
  {
    Dict(v.fields["image" := Dict(ImageOf(v.fields)["tag" := Text(tag)])])
  }

  /** The first entry of the name takes the tag. */
  function SetTag(envs: seq<Value>, env: string, tag: string): seq<Value>
  {
    if envs == [] then []
    else if IsNamed(envs[0], env) then [WithTag(envs[0], tag)] + envs[1..]
    else [envs[0]] + SetTag(envs[1..], env, tag)
  }

  /** A committed change of image: by a deploy, which knows the repository it saw first, or by
      a rollback, which does not. */
  datatype Edit = Edit(env: string, tag: string, repository: Option<string>)

  /** What spec.image becomes when no environment entry takes the tag. */
  function AppWide(spec: Fields, e: Edit): Fields
  {
    if e.repository.Some? then map["repository" := Text(e.repository.value), "tag" := Text(e.tag)]
    else ImageOf(spec)["tag" := Text(e.tag)]
  }

  function Apply(spec: Fields, e: Edit): Fields
  {
    if HasEntry(Environments(spec), e.env)
    then spec["environments" := List(SetTag(Environments(spec), e.env, e.tag))]
    else spec["image" := Dict(AppWide(spec, e))]
  }

  function Replay(spec: Fields, edits: seq<Edit>): Fields
  {
    if edits == [] then spec else Apply(Replay(spec, edits[..|edits| - 1]), edits[|edits| - 1])
  }

  lemma {:induction false} SetTagSplits(front: seq<Value>, v: Value, rest: seq<Value>, env: string, tag: string)
    requires !HasEntry(front, env)
    ensures SetTag(front + [v] + rest, env, tag) ==
      front + if IsNamed(v, env) then [WithTag(v, tag)] + rest else [v] + SetTag(rest, env, tag)
  {
    hide WithTag;
    var all := front + [v] + rest;
    if front == [] {
      assert all == [v] + rest;
    } else {
      assert front[0] in front && forall w | w in front[1..] :: w in front;
      assert all[1..] == front[1..] + [v] + rest;
      SetTagSplits(front[1..], v, rest, env, tag);
    }
  }

  lemma HasEntrySplits(front: seq<Value>, v: Value, rest: seq<Value>, env: string)
    ensures HasEntry(front + [v], env) <==> HasEntry(front, env) || IsNamed(v, env)
    ensures IsNamed(v, env) ==> HasEntry(front + [v] + rest, env)
  {
    assert v in front + [v] + rest && v in front + [v];
    assert forall w | w in front :: w in front + [v];
  }

  lemma {:induction false} SetTagOfNone(envs: seq<Value>, env: string, tag: string)
    requires !HasEntry(envs, env)
    ensures SetTag(envs, env, tag) == envs
  {
    if envs != [] {
      assert envs[0] in envs && forall w | w in envs[1..] :: w in envs;
      SetTagOfNone(envs[1..], env, tag);
    }
  }

  /** The loop over the environments, the same in a deploy and in a rollback. */
  method TagEnvironment(envs: seq<Value>, env: string, tag: string) returns (envs': seq<Value>, updated: bool)
    ensures updated <==> HasEntry(envs, env)
    ensures envs' == SetTag(envs, env, tag)
  {
    envs', updated := envs, false;
    assert !HasEntry([], env);
    hide HasEntry, SetTag;
    for i := 0 to |envs|
      invariant envs' == envs && !updated && !HasEntry(envs[..i], env)
    {
      assert envs == envs[..i] + [envs[i]] + envs[i + 1..] && envs[..i + 1] == envs[..i] + [envs[i]];
      HasEntrySplits(envs[..i], envs[i], envs[i + 1..], env);
      if envs[i].Dict? && GetString(envs[i].fields, "name") == env {
        var image := OrEmpty(GetDict(envs[i].fields, "image"));
        image := image["tag" := Text(tag)];
        SetTagSplits(envs[..i], envs[i], envs[i + 1..], env, tag);
        envs' := envs[i := Dict(envs[i].fields["image" := Dict(image)])];
        updated := true;
        return;
      }
    }
    assert envs[..|envs|] == envs;
    SetTagOfNone(envs, env, tag);
  }

  // ---------- The last tag wins ----------

  /** Every environment is an object with a name of its own. */
  ghost predicate DistinctEnvironments(envs: seq<Value>)
  {
    (forall v | v in envs :: v.Dict?) &&
    forall i, j | 0 <= i < j < |envs| :: NameOf(envs[i]) != NameOf(envs[j])
  }

  function NameOf(v: Value): string { if v.Dict? then GetString(v.fields, "name") else "" }

  /** The tag of the last edit of an environment. */
  function LastTag(edits: seq<Edit>, env: string): Option<string>
  {
    if edits == [] then None
    else if edits[|edits| - 1].env == env then Some(edits[|edits| - 1].tag)
    else LastTag(edits[..|edits| - 1], env)
  }

  function RetagOne(v: Value, tag: Option<string>): Value
  {
    if v.Dict? && tag.Some? then WithTag(v, tag.value) else v
  }

  /** Each environment with its own last tag, nothing else changed. */
  function Retag(envs: seq<Value>, edits: seq<Edit>): seq<Value>
  {
    seq(|envs|, i requires 0 <= i < |envs| => RetagOne(envs[i], LastTag(edits, NameOf(envs[i]))))
  }

  lemma LastTagOverwrites(v: Value, a: string, b: string)
    requires v.Dict?
    ensures WithTag(WithTag(v, a), b) == WithTag(v, b)
  {
    assert ImageOf(WithTag(v, a).fields) == ImageOf(v.fields)["tag" := Text(a)];
    assert ImageOf(v.fields)["tag" := Text(a)]["tag" := Text(b)] == ImageOf(v.fields)["tag" := Text(b)];
  }

  lemma {:induction false} SetTagAt(envs: seq<Value>, env: string, tag: string, k: nat)
    requires k < |envs| && DistinctEnvironments(envs) && IsNamed(envs[k], env)
    ensures SetTag(envs, env, tag) == envs[k := WithTag(envs[k], tag)]
  {
    if k == 0 {
    } else {
      assert NameOf(envs[0]) != NameOf(envs[k]);
      assert DistinctEnvironments(envs[1..]) by { DistinctTail(envs); }
      SetTagAt(envs[1..], env, tag, k - 1);
    }
  }

  lemma DistinctTail(envs: seq<Value>)
    requires DistinctEnvironments(envs) && envs != []
    ensures DistinctEnvironments(envs[1..])
  {
    forall i, j | 0 <= i < j < |envs[1..]| ensures NameOf(envs[1..][i]) != NameOf(envs[1..][j]) {
      assert NameOf(envs[i + 1]) != NameOf(envs[j + 1]);
    }
  }

  lemma RetagKeepsNames(envs: seq<Value>, edits: seq<Edit>)
    requires DistinctEnvironments(envs)
    ensures DistinctEnvironments(Retag(envs, edits))
    ensures forall env :: HasEntry(Retag(envs, edits), env) <==> HasEntry(envs, env)
  {
    var after := Retag(envs, edits);
    forall i | 0 <= i < |envs| ensures after[i].Dict? && NameOf(after[i]) == NameOf(envs[i]) {
      assert envs[i] in envs;
    }
    forall i, j | 0 <= i < j < |after| ensures NameOf(after[i]) != NameOf(after[j]) {
      assert NameOf(envs[i]) != NameOf(envs[j]);
    }
    forall env ensures HasEntry(after, env) <==> HasEntry(envs, env) {
      if HasEntry(envs, env) {
        var i :| 0 <= i < |envs| && IsNamed(envs[i], env);
        assert after[i] in after;
      }
      if HasEntry(after, env) {
        var i :| 0 <= i < |after| && IsNamed(after[i], env);
        assert envs[i] in envs;
      }
    }
  }

  lemma RetagExtends(envs: seq<Value>, edits: seq<Edit>, e: Edit)
    requires DistinctEnvironments(envs) && HasEntry(envs, e.env)
    ensures SetTag(Retag(envs, edits), e.env, e.tag) == Retag(envs, edits + [e])
  {
    var before, after := Retag(envs, edits), Retag(envs, edits + [e]);
    assert (edits + [e])[..|edits|] == edits;
    RetagKeepsNames(envs, edits);
    var k :| 0 <= k < |envs| && IsNamed(envs[k], e.env);
    assert envs[k] in envs;
    assert IsNamed(before[k], e.env);
    SetTagAt(before, e.env, e.tag, k);
    forall i | 0 <= i < |envs| ensures after[i] == before[k := WithTag(before[k], e.tag)][i] {
      assert envs[i] in envs;
      if i == k {
        if LastTag(edits, e.env).Some? { LastTagOverwrites(envs[k], LastTag(edits, e.env).value, e.tag); }
      } else {
        assert NameOf(envs[i]) != NameOf(envs[k]);
      }
    }
  }

  ghost predicate Targets(envs: seq<Value>, edits: seq<Edit>)
  {
    forall e | e in edits :: HasEntry(envs, e.env)
  }

  /** Edits applied one after another leave each environment at its last tag: no edit is lost
      to an edit of another environment, and nothing else in the spec moves. */
  lemma {:induction false} LastTagWins(spec: Fields, edits: seq<Edit>)
    requires "environments" in spec && spec["environments"].List?
    requires DistinctEnvironments(Environments(spec)) && Targets(Environments(spec), edits)
    ensures Replay(spec, edits) == spec["environments" := List(Retag(Environments(spec), edits))]
  {
    var envs := Environments(spec);
    if edits == [] {
      assert Retag(envs, edits) == envs;
    } else {
      var front, e := edits[..|edits| - 1], edits[|edits| - 1];
      assert edits == front + [e] && e in edits && forall d | d in front :: d in edits;
      LastTagWins(spec, front);
      RetagKeepsNames(envs, front);
      RetagExtends(envs, front, e);
    }
  }

  // ---------- What one edit touches ----------

  /** Of the entries of the name the first takes the tag, and no other entry moves. */
  lemma {:induction false} SetTagTouchesTheFirst(envs: seq<Value>, env: string, tag: string) returns (i: nat)
    ensures var edited := SetTag(envs, env, tag);
      |edited| == |envs| && i <= |envs| && (forall j | 0 <= j < |envs| && j != i :: edited[j] == envs[j]) &&
      (forall j | 0 <= j < i :: !IsNamed(envs[j], env)) &&
      (i < |envs| ==> IsNamed(envs[i], env) && edited[i] == WithTag(envs[i], tag))
    decreases |envs|
  {
    i := 0;
    if envs != [] && !IsNamed(envs[0], env) {
      i := SetTagTouchesTheFirst(envs[1..], env, tag);
      i := i + 1;
      assert forall j | 0 < j < |envs| :: envs[j] == envs[1..][j - 1] && SetTag(envs, env, tag)[j] == SetTag(envs[1..], env, tag)[j - 1];
    }
    hide WithTag;
  }

  /** An entry that takes a tag keeps every other field, and its image every other field of its own. */
  lemma TaggedEntry(v: Value, tag: string, field: string)
    requires v.Dict?
    ensures var now := WithTag(v, tag);
      now.Dict? && GetDict(now.fields, "image").Some? &&
      (field != "image" ==> (field in now.fields <==> field in v.fields) && (field in v.fields ==> now.fields[field] == v.fields[field])) &&
      var was, image := OrEmpty(GetDict(v.fields, "image")), GetDict(now.fields, "image").value;
      (field in image <==> field in was || field == "tag") &&
      (field in image ==> image[field] == if field == "tag" then Text(tag) else was[field])
  {}
}
