/** A configuration update of an app: what the merge of a patch carries over of the images and
    certificates already chosen, on its first attempt and on a retry. */
module ConfigUpdate {
  import opened Json
  import opened Text
  import opened AppSpec
  import opened History

  // ---------- Image overrides of the environments ----------

  function FieldsOf(v: Value): Fields { if v.Dict? then v.fields else map[] }

  /** A field that is there and not null. */
  function Given(m: Fields, key: string): Option<Value>
  {
    if key in m && m[key] != Null then Some(m[key]) else None
  }

  /** The image recorded for a name; of entries that share it, the last that has one. */
  function StoredImage(envs: seq<Value>, name: string): Option<Value>
  {
    if envs == [] then None
    else
      var v := envs[|envs| - 1];
      if v.Dict? && NameOf(v) == name && Given(v.fields, "image").Some? then Given(v.fields, "image")
      else StoredImage(envs[..|envs| - 1], name)
  }

  ghost predicate IndexesImages(images: map<string, Value>, envs: seq<Value>)
  {
    forall n :: (if n in images then Some(images[n]) else None) == StoredImage(envs, n)
  }

  method CollectEnvImages(envs: seq<Value>) returns (images: map<string, Value>)
    ensures IndexesImages(images, envs)
  {
    images := map[];
    for i := 0 to |envs|
      invariant IndexesImages(images, envs[..i])
    {
      assert envs[..i + 1][..i] == envs[..i];
      if envs[i].Dict? {
        var fields := envs[i].fields;
        if "image" in fields && fields["image"] != Null {
          images := images[GetString(fields, "name") := fields["image"]];
        }
      }
    }
    assert envs[..|envs|] == envs;
  }

  /** An entry that leaves image out takes the recorded one; one that sets it keeps its own, and
      an explicit null clears it. */
  function RestoreImage(v: Value, stored: Option<Value>): Value
  {
    if !v.Dict? then v
    else if "image" in v.fields then (if v.fields["image"] == Null then Dict(v.fields - {"image"}) else v)
    else if stored.Some? then Dict(v.fields["image" := stored.value])
    else v
  }

  function RestoreImages(patchEnvs: seq<Value>, envs: seq<Value>): seq<Value>
  {
    seq(|patchEnvs|, i requires 0 <= i < |patchEnvs| => RestoreImage(patchEnvs[i], StoredImage(envs, NameOf(patchEnvs[i]))))
  }

  method RestoreEnvImages(patchEnvs: seq<Value>, images: map<string, Value>, ghost envs: seq<Value>)
    returns (restored: seq<Value>)
    requires IndexesImages(images, envs)
    ensures restored == RestoreImages(patchEnvs, envs)
  {
    restored := patchEnvs;
    for i := 0 to |patchEnvs|
      invariant |restored| == |patchEnvs| && restored[..i] == RestoreImages(patchEnvs, envs)[..i]
      invariant restored[i..] == patchEnvs[i..]
    {
      var v := restored[i];
      assert v == patchEnvs[i];
      if v.Dict? {
        if "image" in v.fields {
          if v.fields["image"] == Null {
            restored := restored[i := Dict(v.fields - {"image"})];
          }
        } else if GetString(v.fields, "name") in images {
          restored := restored[i := Dict(v.fields["image" := images[GetString(v.fields, "name")]])];
        }
      }
      assert restored[i] == RestoreImages(patchEnvs, envs)[i];
    }
  }

  /** Of the entries of a name the last that has an image counts. */
  lemma {:induction false} StoredImageIsTheLast(envs: seq<Value>, name: string) returns (i: nat)
    ensures StoredImage(envs, name).None? <==>
      forall j | 0 <= j < |envs| :: !(envs[j].Dict? && NameOf(envs[j]) == name && Given(envs[j].fields, "image").Some?)
    ensures StoredImage(envs, name).Some? ==>
      i < |envs| && envs[i].Dict? && NameOf(envs[i]) == name && StoredImage(envs, name) == Given(envs[i].fields, "image") &&
      forall j | i < j < |envs| :: !(envs[j].Dict? && NameOf(envs[j]) == name && Given(envs[j].fields, "image").Some?)
  {
    i := 0;
    if envs != [] {
      var front, v := envs[..|envs| - 1], envs[|envs| - 1];
      assert envs == front + [v];
      i := StoredImageIsTheLast(front, name);
      if v.Dict? && NameOf(v) == name && Given(v.fields, "image").Some? { i := |front|; }
      hide NameOf, Given;
    }
  }

  // ---------- The certificate selection ----------

  const CERT_FIELDS := ["clusterIssuer", "tlsSecretName", "tlsMode"]

  function Pick(ingress: Fields): Fields
  {
    map f | f in ingress && f in CERT_FIELDS && ingress[f] != Null && ingress[f] != Text("") :: ingress[f]
  }

  /** Fields the patch leaves out come from what was stored; an explicit null clears. */
  function MergeCerts(ingress: Fields, previous: Fields): Fields
  {
    (map f | f in ingress && !(f in CERT_FIELDS && ingress[f] == Null) :: ingress[f]) +
    (map f | f in previous && f in CERT_FIELDS && f !in ingress :: previous[f])
  }

  method PickCertFields(ingress: Fields) returns (kept: Fields)
    ensures kept == Pick(ingress)
  {
    kept := map[];
    for i := 0 to |CERT_FIELDS|
      invariant kept == map f | f in ingress && f in CERT_FIELDS[..i] && ingress[f] != Null && ingress[f] != Text("") :: ingress[f]
    {
      var f := CERT_FIELDS[i];
      assert CERT_FIELDS[..i + 1] == CERT_FIELDS[..i] + [f];
      if f in ingress && ingress[f] != Null && ingress[f] != Text("") {
        kept := kept[f := ingress[f]];
      }
    }
  }

  /** What MergeCerts makes of the fields in done, the rest as in ingress. */
  ghost predicate Merging(ingress: Fields, previous: Fields, done: seq<string>, merged: Fields)
  {
    forall f :: At(merged, f) ==
      if f !in done then At(ingress, f)
      else if f in ingress then (if ingress[f] == Null then None else Some(ingress[f]))
      else At(previous, f)
  }

  function At(m: Fields, key: string): Option<Value> { if key in m then Some(m[key]) else None }

  method MergeCertFields(ingress: Fields, previous: Fields) returns (merged: Fields)
    ensures merged == MergeCerts(ingress, previous)
  {
    merged := ingress;
    for i := 0 to |CERT_FIELDS|
      invariant Merging(ingress, previous, CERT_FIELDS[..i], merged)
    {
      var f := CERT_FIELDS[i];
      assert CERT_FIELDS[..i + 1] == CERT_FIELDS[..i] + [f];
      assert At(merged, f) == At(ingress, f);
      if f in merged {
        if merged[f] == Null {
          merged := merged - {f};
        }
      } else if f in previous {
        merged := merged[f := previous[f]];
      }
    }
    assert CERT_FIELDS[..|CERT_FIELDS|] == CERT_FIELDS;
    MergingEnds(ingress, previous, merged);
  }

  lemma MergingEnds(ingress: Fields, previous: Fields, merged: Fields)
    requires Merging(ingress, previous, CERT_FIELDS, merged)
    ensures merged == MergeCerts(ingress, previous)
  {
    var want := MergeCerts(ingress, previous);
    forall f ensures At(merged, f) == At(want, f) {}
    assert forall f :: f in merged <==> At(merged, f).Some?;
    assert forall f :: f in want <==> At(want, f).Some?;
    assert merged.Keys == want.Keys;
    forall f | f in merged ensures merged[f] == want[f] {
      assert At(merged, f) == At(want, f);
    }
  }

  /** The ingress recorded for a name; of entries that share it, the last that has one. */
  function StoredIngress(envs: seq<Value>, name: string): Option<Fields>
  {
    if envs == [] then None
    else
      var v := envs[|envs| - 1];
      if v.Dict? && NameOf(v) == name && GetDict(v.fields, "ingress").Some? then GetDict(v.fields, "ingress")
      else StoredIngress(envs[..|envs| - 1], name)
  }

  /** The selection snapshot kept under a name; "" stands for the app level, unless an
      environment without a name takes its place. */
  function CertsUnder(ingress: Option<Fields>, envs: seq<Value>, name: string): Fields
  {
    var own := StoredIngress(envs, name);
    if own.Some? then Pick(own.value)
    else if name == "" && ingress.Some? then Pick(ingress.value)
    else map[]
  }

  function StoredCerts(spec: Fields, name: string): Fields
  {
    CertsUnder(GetDict(spec, "ingress"), Environments(spec), name)
  }

  function Kept(certs: map<string, Fields>, name: string): Fields { if name in certs then certs[name] else map[] }

  ghost predicate IndexesCerts(certs: map<string, Fields>, ingress: Option<Fields>, envs: seq<Value>)
  {
    forall n :: Kept(certs, n) == CertsUnder(ingress, envs, n)
  }

  lemma CertsStep(certs: map<string, Fields>, ingress: Option<Fields>, envs: seq<Value>, v: Value)
    requires IndexesCerts(certs, ingress, envs)
    ensures v.Dict? && GetDict(v.fields, "ingress").Some? ==>
      IndexesCerts(certs[NameOf(v) := Pick(GetDict(v.fields, "ingress").value)], ingress, envs + [v])
    ensures !(v.Dict? && GetDict(v.fields, "ingress").Some?) ==> IndexesCerts(certs, ingress, envs + [v])
  {
    hide Pick;
    assert (envs + [v])[..|envs|] == envs;
    if v.Dict? && GetDict(v.fields, "ingress").Some? {
      var picked := Pick(GetDict(v.fields, "ingress").value);
      forall n ensures Kept(certs[NameOf(v) := picked], n) == CertsUnder(ingress, envs + [v], n) {
        assert Kept(certs[NameOf(v) := picked], n) == if n == NameOf(v) then picked else Kept(certs, n);
        assert Kept(certs, n) == CertsUnder(ingress, envs, n);
      }
    }
  }

  method CollectIngressCertFields(spec: Fields) returns (certs: map<string, Fields>)
    ensures forall n :: Kept(certs, n) == StoredCerts(spec, n)
  {
    certs := map[];
    var app := GetDict(spec, "ingress");
    if app.Some? {
      var kept := PickCertFields(app.value);
      certs := certs["" := kept];
    }
    var envs := GetList(spec, "environments");
    assert IndexesCerts(certs, app, []);
    hide IndexesCerts, Pick;
    for i := 0 to |envs|
      invariant IndexesCerts(certs, app, envs[..i])
    {
      CertsStep(certs, app, envs[..i], envs[i]);
      assert envs[..i + 1] == envs[..i] + [envs[i]];
      if envs[i].Dict? {
        var ingress := GetDict(envs[i].fields, "ingress");
        if ingress.Some? {
          var kept := PickCertFields(ingress.value);
          certs := certs[GetString(envs[i].fields, "name") := kept];
        }
      }
    }
    assert envs[..|envs|] == envs;
    IndexEnds(certs, spec);
  }

  lemma IndexEnds(certs: map<string, Fields>, spec: Fields)
    requires IndexesCerts(certs, GetDict(spec, "ingress"), Environments(spec))
    ensures forall n :: Kept(certs, n) == StoredCerts(spec, n)
  {}

  function RestoreCertsOf(v: Value, stored: Fields): Value
  {
    if v.Dict? && GetDict(v.fields, "ingress").Some?
    then Dict(v.fields["ingress" := Dict(MergeCerts(GetDict(v.fields, "ingress").value, stored))])
    else v
  }

  function RestoreEnvCerts(envs: seq<Value>, stored: Fields): seq<Value>
  {
    seq(|envs|, i requires 0 <= i < |envs| => RestoreCertsOf(envs[i], StoredCerts(stored, NameOf(envs[i]))))
  }

  /** The merged spec with the selection stored before it. */
  function RestoreCerts(spec: Fields, stored: Fields): Fields
  {
    var app := GetDict(spec, "ingress");
    var spec := if app.Some? then spec["ingress" := Dict(MergeCerts(app.value, StoredCerts(stored, "")))] else spec;
    if "environments" in spec && spec["environments"].List?
    then spec["environments" := List(RestoreEnvCerts(Environments(spec), stored))]
    else spec
  }

  method RestoreEnvCertFields(envs: seq<Value>, certs: map<string, Fields>, ghost stored: Fields) returns (envs': seq<Value>)
    requires forall n :: Kept(certs, n) == StoredCerts(stored, n)
    ensures envs' == RestoreEnvCerts(envs, stored)
  {
    hide StoredCerts, MergeCerts;
    envs' := envs;
    for i := 0 to |envs|
      invariant |envs'| == |envs| && envs'[i..] == envs[i..]
      invariant envs'[..i] == RestoreEnvCerts(envs, stored)[..i]
    {
      var v := envs'[i];
      assert v == envs[i];
      if v.Dict? {
        var ingress := GetDict(v.fields, "ingress");
        if ingress.Some? {
          var merged := MergeCertFields(ingress.value, Kept(certs, GetString(v.fields, "name")));
          envs' := envs'[i := Dict(v.fields["ingress" := Dict(merged)])];
        }
      }
      assert envs'[i] == RestoreEnvCerts(envs, stored)[i];
    }
  }

  method RestoreIngressCertFields(spec: Fields, certs: map<string, Fields>, ghost stored: Fields) returns (spec': Fields)
    requires forall n :: Kept(certs, n) == StoredCerts(stored, n)
    ensures spec' == RestoreCerts(spec, stored)
  {
    hide StoredCerts, MergeCerts, RestoreEnvCerts;
    spec' := spec;
    var app := GetDict(spec, "ingress");
    if app.Some? {
      var merged := MergeCertFields(app.value, Kept(certs, ""));
      spec' := spec'["ingress" := Dict(merged)];
    }
    if "environments" in spec' && spec'["environments"].List? {
      var envs := RestoreEnvCertFields(spec'["environments"].items, certs, stored);
      spec' := spec'["environments" := List(envs)];
    }
  }

  // ---------- One attempt ----------

  /** A patch replaces top-level fields whole; a null removes one. */
  function Merge(spec: Fields, patch: Fields): Fields
  {
    map k | k in spec.Keys + patch.Keys && !(k in patch && patch[k] == Null) :: if k in patch then patch[k] else spec[k]
  }

  function MergeRuntime(merged: Fields, spec: Fields, patch: Fields): Fields
  {
    var was, now := GetDict(spec, "runtime"), GetDict(patch, "runtime");
    if was.Some? && now.Some? then merged["runtime" := Dict(was.value + now.value)] else merged
  }

  function MergeImages(merged: Fields, spec: Fields, patch: Fields): Fields
  {
    if "environments" in patch && patch["environments"].List?
    then merged["environments" := List(RestoreImages(patch["environments"].items, Environments(spec)))]
    else merged
  }

  /** The app-level image of a patch that leaves the tag out. */
  function KeepTag(image: Fields, tag: string): Fields
  {
    if tag != "" && "tag" !in image then image["tag" := Text(tag)] else image
  }

  function MergeTag(merged: Fields, spec: Fields, patch: Fields): Fields
  {
    var image := GetDict(patch, "image");
    if image.Some? then merged["image" := Dict(KeepTag(image.value, GetString(ImageOf(spec), "tag")))] else merged
  }

  /** The spec an attempt sends. */
  function Updated(spec: Fields, patch: Fields): Fields
  {
    MergeTag(RestoreCerts(MergeImages(MergeRuntime(Merge(spec, patch), spec, patch), spec, patch), spec), spec, patch)
  }

  /** The patch maps that went into the spec are the ones edited there. */
  function ShareMaps(sent: Fields, patch: Fields): Fields
  {
    map k | k in patch ::
      if (k == "environments" && patch[k].List?) || ((k == "ingress" || k == "image") && patch[k].Dict?)
      then (if k in sent then sent[k] else patch[k])
      else patch[k]
  }

  /** The patch after an attempt. */
  function Edited(spec: Fields, patch: Fields): Fields { ShareMaps(Updated(spec, patch), patch) }

  class UpdateCall {
    /** The decoded request, shared by every attempt. */
    var patch: Fields

    constructor (patch: Fields)
      ensures this.patch == patch
    {
      this.patch := patch;
    }

    method MergePatch(spec: Fields) returns (merged: Fields)
      ensures merged == Merge(spec, patch)
    {
      merged := spec;
      var rest := patch.Keys;
      while rest != {}
        invariant rest <= patch.Keys
        invariant merged == Merge(spec, map k | k in patch && k !in rest :: patch[k])
        decreases rest
      {
        var k :| k in rest;
        if patch[k] == Null {
          merged := merged - {k};
        } else {
          merged := merged[k := patch[k]];
        }
        rest := rest - {k};
      }
      assert (map k | k in patch && k !in rest :: patch[k]) == patch;
    }

    /** One pass of the retry closure, up to the update it sends. */
    method Attempt(spec: Fields) returns (sent: Fields)
      modifies this
      ensures sent == Updated(spec, old(patch)) && patch == Edited(spec, old(patch))
    {
      var envs := GetList(spec, "environments");
      var images := CollectEnvImages(envs);
      var tag := GetString(OrEmpty(GetDict(spec, "image")), "tag");
      var certs := CollectIngressCertFields(spec);
      sent := MergePatch(spec);
      hide StoredImage, StoredCerts, Merge, RestoreCerts, RestoreImages, IndexesImages;
      var was, now := GetDict(spec, "runtime"), GetDict(patch, "runtime");
      if was.Some? && now.Some? {
        sent := sent["runtime" := Dict(was.value + now.value)];
      }
      if "environments" in patch && patch["environments"].List? {
        var restored := RestoreEnvImages(patch["environments"].items, images, envs);
        sent := sent["environments" := List(restored)];
      }
      sent := RestoreIngressCertFields(sent, certs, spec);
      var image := GetDict(patch, "image");
      if image.Some? {
        var kept := image.value;
        if tag != "" && "tag" !in kept {
          kept := kept["tag" := Text(tag)];
        }
        sent := sent["image" := Dict(kept)];
      }
      patch := ShareMaps(sent, patch);
    }
  }

  // ---------- A first attempt keeps what runs ----------

  /** The environments of an attempt before the certificates are restored. */
  function MergedEnvironments(spec: Fields, patch: Fields): seq<Value>
  {
    Environments(MergeImages(MergeRuntime(Merge(spec, patch), spec, patch), spec, patch))
  }

  lemma MergedEnvironmentsAre(spec: Fields, patch: Fields)
    ensures "environments" in patch && patch["environments"].List? ==>
      MergedEnvironments(spec, patch) == RestoreImages(patch["environments"].items, Environments(spec))
    ensures "environments" !in patch ==> MergedEnvironments(spec, patch) == Environments(spec)
  {
    hide RestoreImages;
  }

  lemma SentEnvironments(spec: Fields, patch: Fields)
    ensures Environments(Updated(spec, patch)) == RestoreEnvCerts(MergedEnvironments(spec, patch), spec)
  {
    hide MergeImages, RestoreEnvCerts, MergeCerts, StoredCerts, MergeRuntime, Merge, KeepTag;
    assert RestoreEnvCerts([], spec) == [] by { NoEnvCerts(spec); }
  }

  lemma NoEnvCerts(spec: Fields)
    ensures RestoreEnvCerts([], spec) == []
  {}

  lemma RestoringCertsKeeps(v: Value, stored: Fields)
    ensures NameOf(RestoreCertsOf(v, stored)) == NameOf(v) && (RestoreCertsOf(v, stored).Dict? <==> v.Dict?)
    ensures At(FieldsOf(RestoreCertsOf(v, stored)), "image") == At(FieldsOf(v), "image")
  {
    hide MergeCerts;
  }

  /** The image of an environment entry of the sent spec. */
  lemma SentImage(spec: Fields, patch: Fields, k: nat)
    requires k < |MergedEnvironments(spec, patch)|
    ensures k < |Environments(Updated(spec, patch))|
    ensures TargetOf(Environments(Updated(spec, patch))[k]) == TargetOf(MergedEnvironments(spec, patch)[k])
  {
    SentEnvironments(spec, patch);
    var v := MergedEnvironments(spec, patch)[k];
    hide MergedEnvironments, Updated, StoredCerts;
    RestoringCertsKeeps(v, StoredCerts(spec, NameOf(v)));
    ImageInReadsGiven(FieldsOf(RestoreCertsOf(v, StoredCerts(spec, NameOf(v)))), FieldsOf(v));
    hide RestoreCertsOf, ImageIn;
  }

  lemma {:induction false} StoredImageAt(envs: seq<Value>, i: nat)
    requires i < |envs| && DistinctEnvironments(envs)
    ensures StoredImage(envs, NameOf(envs[i])) == Given(FieldsOf(envs[i]), "image")
  {
    var v := envs[|envs| - 1];
    assert v in envs && envs[i] in envs;
    if i < |envs| - 1 {
      assert NameOf(envs[i]) != NameOf(v);
      assert DistinctEnvironments(envs[..|envs| - 1]) by {
        assert forall w | w in envs[..|envs| - 1] :: w in envs;
      }
      StoredImageAt(envs[..|envs| - 1], i);
    } else {
      NoOtherImage(envs[..|envs| - 1], NameOf(v));
    }
  }

  lemma {:induction false} NoOtherImage(envs: seq<Value>, name: string)
    requires forall v | v in envs :: NameOf(v) != name
    ensures StoredImage(envs, name) == None
  {
    if envs != [] {
      assert envs[|envs| - 1] in envs && forall v | v in envs[..|envs| - 1] :: v in envs;
      NoOtherImage(envs[..|envs| - 1], name);
    }
  }

  lemma ImageInReadsGiven(a: Fields, b: Fields)
    requires Given(a, "image") == Given(b, "image")
    ensures ImageIn(a) == ImageIn(b)
  {}

  /** The app-level image when the patch has none. */
  lemma AppImageKept(spec: Fields, patch: Fields)
    requires "image" !in patch
    ensures ImageIn(Updated(spec, patch)) == ImageIn(spec)
  {
    hide StoredImage, StoredCerts, MergeCerts, RestoreImages, RestoreEnvCerts;
  }

  lemma AppTagKept(spec: Fields, patch: Fields)
    requires GetDict(patch, "image").Some? && "tag" !in GetDict(patch, "image").value
    ensures GetString(ImageOf(Updated(spec, patch)), "tag") == GetString(ImageOf(spec), "tag")
  {
    hide RestoreCerts, MergeImages, MergeRuntime, Merge;
  }

  /** The runtime is merged field by field: the patch's fields win, the others stay. */
  lemma RuntimeMerges(spec: Fields, patch: Fields, field: string)
    requires GetDict(spec, "runtime").Some? && GetDict(patch, "runtime").Some?
    ensures GetDict(Updated(spec, patch), "runtime").Some?
    ensures var was, given, now :=
        GetDict(spec, "runtime").value, GetDict(patch, "runtime").value, GetDict(Updated(spec, patch), "runtime").value;
      At(now, field) == if field in given then At(given, field) else At(was, field)
  {
    hide StoredImage, StoredCerts, MergeCerts, RestoreImages, RestoreEnvCerts;
  }

  /** Any field that is not merged specially is replaced whole, removed by a null, or left. */
  lemma OtherFieldsMerge(spec: Fields, patch: Fields, field: string)
    requires field !in {"environments", "ingress", "image", "runtime"}
    ensures At(Updated(spec, patch), field) == if field in patch then Given(patch, field) else At(spec, field)
  {
    hide StoredImage, StoredCerts, MergeCerts, RestoreImages, RestoreEnvCerts;
  }

  /** A config update that names no image leaves the image of every environment it lists as it
      was, when the stored environments have names of their own. */
  lemma UpdateKeepsImages(spec: Fields, patch: Fields, i: nat, k: nat)
    requires "image" !in patch && "environments" in patch && patch["environments"].List?
    requires i < |Environments(spec)| && DistinctEnvironments(Environments(spec))
    requires k < |patch["environments"].items| && patch["environments"].items[k].Dict?
    requires "image" !in patch["environments"].items[k].fields
    requires NameOf(patch["environments"].items[k]) == NameOf(Environments(spec)[i])
    ensures k < |Environments(Updated(spec, patch))| && Running(Updated(spec, patch), k) == Running(spec, i)
  {
    MergedEnvironmentsAre(spec, patch);
    SentImage(spec, patch, k);
    StoredImageAt(Environments(spec), i);
    AppImageKept(spec, patch);
    assert Environments(spec)[i] in Environments(spec);
    ImageInReadsGiven(FieldsOf(MergedEnvironments(spec, patch)[k]), FieldsOf(Environments(spec)[i]));
    hide Updated, MergedEnvironments, StoredImage, DistinctEnvironments, ResolveImage, ImageIn;
  }

  /** So does one that lists none. */
  lemma UpdateKeepsUnlistedImages(spec: Fields, patch: Fields, k: nat)
    requires "image" !in patch && "environments" !in patch && k < |Environments(spec)|
    ensures k < |Environments(Updated(spec, patch))| && Running(Updated(spec, patch), k) == Running(spec, k)
  {
    MergedEnvironmentsAre(spec, patch);
    SentImage(spec, patch, k);
    AppImageKept(spec, patch);
    hide Updated, MergedEnvironments, ResolveImage, ImageIn;
  }

  // ---------- A retry carries the first copy's images ----------

  /** The patch after attempts that met conflicts, one per copy read. */
  function Retried(copies: seq<Fields>, patch: Fields): Fields
  {
    if copies == [] then patch else Edited(copies[|copies| - 1], Retried(copies[..|copies| - 1], patch))
  }

  /** The image of the first copy that had one. */
  function FirstImage(copies: seq<Fields>, name: string): Option<Value>
  {
    if copies == [] then None
    else
      var before := FirstImage(copies[..|copies| - 1], name);
      if before.Some? then before else StoredImage(Environments(copies[|copies| - 1]), name)
  }

  lemma {:induction false} StoredIsNotNull(envs: seq<Value>, name: string)
    ensures StoredImage(envs, name) != Some(Null)
  {
    if envs != [] {
      StoredIsNotNull(envs[..|envs| - 1], name);
    }
  }

  ghost predicate Carries(patch: Fields, k: nat, name: string, image: Option<Value>)
  {
    "environments" in patch && patch["environments"].List? && k < |patch["environments"].items| &&
    patch["environments"].items[k].Dict? && NameOf(patch["environments"].items[k]) == name &&
    At(patch["environments"].items[k].fields, "image") == image
  }

  /** What one attempt leaves in the environment entry of the patch, and sends. */
  lemma AttemptCarries(spec: Fields, patch: Fields, k: nat, name: string, image: Option<Value>)
    requires Carries(patch, k, name, image) && image != Some(Null)
    ensures var kept := if image.Some? then image else StoredImage(Environments(spec), name);
      Carries(Edited(spec, patch), k, name, kept) && Carries(Updated(spec, patch), k, name, kept)
  {
    MergedEnvironmentsAre(spec, patch);
    SentEnvironments(spec, patch);
    SentIsList(spec, patch);
    var v := MergedEnvironments(spec, patch)[k];
    hide MergedEnvironments, Updated, StoredCerts, StoredImage;
    RestoringCertsKeeps(v, StoredCerts(spec, NameOf(v)));
  }

  lemma SentIsList(spec: Fields, patch: Fields)
    requires "environments" in patch && patch["environments"].List?
    ensures "environments" in Updated(spec, patch) && Updated(spec, patch)["environments"].List?
  {
    hide RestoreImages, RestoreEnvCerts, MergeCerts, StoredCerts, MergeRuntime, Merge, KeepTag;
  }

  lemma {:induction false} RetriesCarry(copies: seq<Fields>, patch: Fields, k: nat, name: string)
    requires Carries(patch, k, name, None)
    ensures Carries(Retried(copies, patch), k, name, FirstImage(copies, name)) && FirstImage(copies, name) != Some(Null)
  {
    if copies != [] {
      var front, last := copies[..|copies| - 1], copies[|copies| - 1];
      RetriesCarry(front, patch, k, name);
      AttemptCarries(last, Retried(front, patch), k, name, FirstImage(front, name));
      StoredIsNotNull(Environments(last), name);
    }
  }

  /** The update that goes through after conflicts sends, for an environment whose image the
      patch leaves out, the image of the first copy that had one. So what was deployed between
      the attempts survives exactly when that image is the one stored by then. */
  lemma RetrySendsTheFirstImage(earlier: seq<Fields>, spec: Fields, patch: Fields, k: nat, name: string)
    requires Carries(patch, k, name, None)
    ensures var sent := Updated(spec, Retried(earlier, patch));
      Carries(sent, k, name, FirstImage(earlier + [spec], name)) &&
      (Carries(sent, k, name, StoredImage(Environments(spec), name)) <==>
        FirstImage(earlier, name) in {None, StoredImage(Environments(spec), name)})
  {
    RetriesCarry(earlier, patch, k, name);
    AttemptCarries(spec, Retried(earlier, patch), k, name, FirstImage(earlier, name));
    assert (earlier + [spec])[..|earlier|] == earlier;
    hide Updated, Retried, StoredImage;
  }

  // ---------- The certificate an environment gets ----------

  const ISSUER_ANNOTATION := "cert-manager.io/cluster-issuer"

  datatype Ingress = Ingress(mode: string, secretName: string, issuer: string, annotation: string)

  /** What the operator reads of an ingress block; a missing one reads as empty. */
  function IngressOf(ingress: Option<Fields>): Ingress
  {
    var m := OrEmpty(ingress);
    Ingress(GetString(m, "tlsMode"), GetString(m, "tlsSecretName"), GetString(m, "clusterIssuer"),
            GetString(OrEmpty(GetDict(m, "annotations")), ISSUER_ANNOTATION))
  }

  datatype CertConfig = CertConfig(clusterIssuer: string, secretName: string, unmanaged: bool, adopted: bool)

  function ResolveCertConfig(app: Ingress, env: Ingress, globalIssuer: string, defaultSecret: string): CertConfig
  {
    var mode := if env.mode != "" then env.mode else app.mode;
    if mode == "custom-annotations" then CertConfig("", defaultSecret, true, false)
    else if env.secretName != "" then CertConfig("", env.secretName, false, false)
    else if app.secretName != "" then CertConfig("", app.secretName, false, false)
    else if mode == "manual" then CertConfig("", defaultSecret, false, false)
    else if env.issuer != "" then CertConfig(env.issuer, defaultSecret, false, false)
    else if app.issuer != "" then CertConfig(app.issuer, defaultSecret, false, false)
    else if env.annotation != "" then CertConfig(env.annotation, defaultSecret, false, true)
    else if app.annotation != "" then CertConfig(app.annotation, defaultSecret, false, true)
    else CertConfig(globalIssuer, defaultSecret, false, false)
  }

  function CertOf(spec: Fields, k: nat, globalIssuer: string, defaultSecret: string): CertConfig
    requires k < |Environments(spec)|
  {
    ResolveCertConfig(IngressOf(GetDict(spec, "ingress")), IngressOf(GetDict(FieldsOf(Environments(spec)[k]), "ingress")),
                      globalIssuer, defaultSecret)
  }

  /** The first of several choices that is made. */
  function FirstGiven(choices: seq<string>): string
  {
    if choices == [] then "" else if choices[0] != "" then choices[0] else FirstGiven(choices[1..])
  }

  /** The documented precedence: the environment before the app, a secret before an issuer, fields
      before annotations, and the instance default last. */
  lemma CertFollowsPrecedence(app: Ingress, env: Ingress, globalIssuer: string, defaultSecret: string)
    ensures var mode := FirstGiven([env.mode, app.mode]);
      var supplied := FirstGiven([env.secretName, app.secretName]);
      var cert := ResolveCertConfig(app, env, globalIssuer, defaultSecret);
      (cert.unmanaged <==> mode == "custom-annotations") &&
      (!cert.unmanaged ==> cert.secretName == FirstGiven([supplied, defaultSecret])) &&
      (cert.unmanaged || supplied != "" || mode == "manual" ==> cert.clusterIssuer == "" && !cert.adopted) &&
      (!cert.unmanaged && supplied == "" && mode != "manual" ==>
        cert.clusterIssuer == FirstGiven([env.issuer, app.issuer, env.annotation, app.annotation, globalIssuer]) &&
        (cert.adopted <==> FirstGiven([env.issuer, app.issuer]) == "" && FirstGiven([env.annotation, app.annotation]) != ""))
  {
    FirstOfTwo(env.mode, app.mode);
    FirstOfTwo(env.secretName, app.secretName);
    FirstOfTwo(FirstGiven([env.secretName, app.secretName]), defaultSecret);
    FirstOfTwo(env.issuer, app.issuer);
    FirstOfTwo(env.annotation, app.annotation);
    FirstOfTwo(app.annotation, globalIssuer);
    FirstStep(env.annotation, [app.annotation, globalIssuer]);
    FirstStep(app.issuer, [env.annotation, app.annotation, globalIssuer]);
    FirstStep(env.issuer, [app.issuer, env.annotation, app.annotation, globalIssuer]);
    assert [env.annotation] + [app.annotation, globalIssuer] == [env.annotation, app.annotation, globalIssuer];
    assert [app.issuer] + [env.annotation, app.annotation, globalIssuer] ==
      [app.issuer, env.annotation, app.annotation, globalIssuer];
    assert [env.issuer] + [app.issuer, env.annotation, app.annotation, globalIssuer] ==
      [env.issuer, app.issuer, env.annotation, app.annotation, globalIssuer];
    hide FirstGiven;
  }

  lemma FirstStep(a: string, rest: seq<string>)
    ensures FirstGiven([a] + rest) == if a != "" then a else FirstGiven(rest)
  {
    assert ([a] + rest)[1..] == rest;
  }

  lemma FirstOfTwo(a: string, b: string)
    ensures FirstGiven([a, b]) == if a != "" then a else b
  {
    assert [a, b][1..] == [b] && [b][1..] == [];
    assert FirstGiven([b]) == b;
  }

  predicate SameSelection(a: Ingress, b: Ingress)
  {
    a.mode == b.mode && a.secretName == b.secretName && a.issuer == b.issuer
  }

  /** Some field decides, so that the legacy annotations are not looked at. */
  predicate Settled(app: Ingress, env: Ingress)
  {
    var mode := if env.mode != "" then env.mode else app.mode;
    mode == "custom-annotations" || mode == "manual" || env.secretName != "" || app.secretName != "" ||
    env.issuer != "" || app.issuer != ""
  }

  /** The annotation in force, if any. */
  function Legacy(app: Ingress, env: Ingress): string
  {
    if env.annotation != "" then env.annotation else app.annotation
  }

  /** With the same selection, the certificate is the same exactly when a field decides it or
      the same legacy annotation is in force. */
  lemma SelectionDecides(app: Ingress, env: Ingress, app': Ingress, env': Ingress, globalIssuer: string, secret: string)
    requires SameSelection(app, app') && SameSelection(env, env')
    ensures ResolveCertConfig(app, env, globalIssuer, secret) == ResolveCertConfig(app', env', globalIssuer, secret) <==>
      Settled(app, env) || Legacy(app, env) == Legacy(app', env')
  {}

  predicate NamesNoCert(ingress: Option<Fields>)
  {
    ingress.Some? ==> forall f | f in CERT_FIELDS :: f !in ingress.value
  }

  /** An ingress block that leaves the selection out takes over the one that was stored. */
  lemma MergedSelection(ingress: Fields, stored: Option<Fields>)
    requires forall f | f in CERT_FIELDS :: f !in ingress
    ensures SameSelection(IngressOf(Some(MergeCerts(ingress, Pick(OrEmpty(stored))))), IngressOf(stored))
    ensures IngressOf(Some(MergeCerts(ingress, Pick(OrEmpty(stored))))).annotation == IngressOf(Some(ingress)).annotation
  {
    var was := OrEmpty(stored);
    var m := MergeCerts(ingress, Pick(was));
    assert CERT_FIELDS[0] == "clusterIssuer" && CERT_FIELDS[1] == "tlsSecretName" && CERT_FIELDS[2] == "tlsMode";
    forall f | f in CERT_FIELDS ensures GetString(m, f) == GetString(was, f) {}
    assert "annotations" !in CERT_FIELDS;
  }

  /** One that was stored, merged with its own selection, reads as before. */
  lemma OwnSelection(ingress: Fields)
    ensures IngressOf(Some(MergeCerts(ingress, Pick(ingress)))) == IngressOf(Some(ingress))
  {
    var m := MergeCerts(ingress, Pick(ingress));
    forall f ensures GetString(m, f) == GetString(ingress, f) {}
    assert "annotations" !in CERT_FIELDS;
  }

  lemma {:induction false} StoredIngressAt(envs: seq<Value>, i: nat)
    requires i < |envs| && DistinctEnvironments(envs)
    ensures StoredIngress(envs, NameOf(envs[i])) == GetDict(FieldsOf(envs[i]), "ingress")
  {
    var v := envs[|envs| - 1];
    assert v in envs && envs[i] in envs;
    if i < |envs| - 1 {
      assert NameOf(envs[i]) != NameOf(v);
      assert DistinctEnvironments(envs[..|envs| - 1]) by {
        assert forall w | w in envs[..|envs| - 1] :: w in envs;
      }
      StoredIngressAt(envs[..|envs| - 1], i);
    } else {
      NoOtherIngress(envs[..|envs| - 1], NameOf(v));
    }
  }

  lemma {:induction false} NoOtherIngress(envs: seq<Value>, name: string)
    requires forall v | v in envs :: NameOf(v) != name
    ensures StoredIngress(envs, name) == None
  {
    if envs != [] {
      assert envs[|envs| - 1] in envs && forall v | v in envs[..|envs| - 1] :: v in envs;
      NoOtherIngress(envs[..|envs| - 1], name);
    }
  }

  /** The environments have names of their own, none of them empty. */
  ghost predicate Named(envs: seq<Value>)
  {
    DistinctEnvironments(envs) && forall v | v in envs :: NameOf(v) != ""
  }

  /** The patch leaves an ingress block that is stored in place, and names no field of the
      selection. */
  predicate KeepsIngress(patch: Fields)
  {
    "ingress" in patch ==> patch["ingress"].Dict? && NamesNoCert(GetDict(patch, "ingress"))
  }

  lemma MergedIngress(spec: Fields, patch: Fields)
    ensures GetDict(MergeImages(MergeRuntime(Merge(spec, patch), spec, patch), spec, patch), "ingress") ==
      if "ingress" in patch then GetDict(patch, "ingress") else GetDict(spec, "ingress")
  {
    hide RestoreImages;
  }

  lemma SentIngress(spec: Fields, patch: Fields)
    requires Named(Environments(spec))
    ensures var before := if "ingress" in patch then GetDict(patch, "ingress") else GetDict(spec, "ingress");
      GetDict(Updated(spec, patch), "ingress") ==
      if before.None? then None else Some(MergeCerts(before.value, Pick(OrEmpty(GetDict(spec, "ingress")))))
  {
    MergedIngress(spec, patch);
    NoOtherIngress(Environments(spec), "");
    var merged := MergeImages(MergeRuntime(Merge(spec, patch), spec, patch), spec, patch);
    assert Pick(map[]) == map[];
    hide MergeImages, MergeRuntime, Merge, MergeCerts, Pick, StoredIngress, KeepTag, RestoreEnvCerts, Named;
    assert GetDict(RestoreCerts(merged, spec), "ingress") == GetDict(Updated(spec, patch), "ingress");
  }

  /** The app-level block keeps its selection. */
  lemma AppSelectionKept(spec: Fields, patch: Fields)
    requires Named(Environments(spec)) && KeepsIngress(patch)
    ensures SameSelection(IngressOf(GetDict(spec, "ingress")), IngressOf(GetDict(Updated(spec, patch), "ingress")))
    ensures IngressOf(GetDict(Updated(spec, patch), "ingress")).annotation ==
      IngressOf(if "ingress" in patch then GetDict(patch, "ingress") else GetDict(spec, "ingress")).annotation
  {
    SentIngress(spec, patch);
    var stored := GetDict(spec, "ingress");
    if "ingress" in patch {
      MergedSelection(GetDict(patch, "ingress").value, stored);
    } else if stored.Some? {
      OwnSelection(stored.value);
    }
    hide Updated, Named, MergeCerts, Pick;
  }

  /** And so does an environment's own block. */
  lemma EnvSelectionKept(spec: Fields, patch: Fields, i: nat, k: nat)
    requires Named(Environments(spec)) && i < |Environments(spec)|
    requires k < |MergedEnvironments(spec, patch)| && MergedEnvironments(spec, patch)[k].Dict?
    requires NameOf(MergedEnvironments(spec, patch)[k]) == NameOf(Environments(spec)[i])
    requires var v, stored := MergedEnvironments(spec, patch)[k], Environments(spec)[i];
      GetDict(FieldsOf(v), "ingress") == GetDict(FieldsOf(stored), "ingress") ||
      (NamesNoCert(GetDict(FieldsOf(v), "ingress")) &&
        (GetDict(FieldsOf(stored), "ingress").Some? ==> GetDict(FieldsOf(v), "ingress").Some?))
    ensures k < |Environments(Updated(spec, patch))|
    ensures var now := IngressOf(GetDict(FieldsOf(Environments(Updated(spec, patch))[k]), "ingress"));
      SameSelection(IngressOf(GetDict(FieldsOf(Environments(spec)[i]), "ingress")), now) &&
      now.annotation == IngressOf(GetDict(FieldsOf(MergedEnvironments(spec, patch)[k]), "ingress")).annotation
  {
    SentEnvironments(spec, patch);
    StoredIngressAt(Environments(spec), i);
    var v, stored := MergedEnvironments(spec, patch)[k], GetDict(FieldsOf(Environments(spec)[i]), "ingress");
    assert Environments(spec)[i] in Environments(spec) && NameOf(v) != "";
    assert Pick(map[]) == map[];
    assert StoredCerts(spec, NameOf(v)) == Pick(OrEmpty(stored));
    hide MergedEnvironments, Updated, StoredCerts, Named, MergeCerts, Pick, StoredIngress;
    var own := GetDict(FieldsOf(v), "ingress");
    if own.Some? {
      if own == stored { OwnSelection(own.value); } else { MergedSelection(own.value, stored); }
    }
  }

  /** The patch entry v keeps the ingress of the stored entry, and names no field of the selection. */
  predicate KeepsEnvIngress(v: Value, stored: Value)
  {
    NamesNoCert(GetDict(FieldsOf(v), "ingress")) &&
    (GetDict(FieldsOf(stored), "ingress").Some? ==> GetDict(FieldsOf(v), "ingress").Some?)
  }

  /** The legacy annotation in force for environment i before the update, and for entry k after it. */
  function LegacyBefore(spec: Fields, i: nat): string
    requires i < |Environments(spec)|
  {
    Legacy(IngressOf(GetDict(spec, "ingress")), IngressOf(GetDict(FieldsOf(Environments(spec)[i]), "ingress")))
  }

  function LegacyAfter(spec: Fields, patch: Fields, k: nat): string
    requires k < |MergedEnvironments(spec, patch)|
  {
    Legacy(IngressOf(if "ingress" in patch then GetDict(patch, "ingress") else GetDict(spec, "ingress")),
           IngressOf(GetDict(FieldsOf(MergedEnvironments(spec, patch)[k]), "ingress")))
  }

  predicate SettledFor(spec: Fields, i: nat)
    requires i < |Environments(spec)|
  {
    Settled(IngressOf(GetDict(spec, "ingress")), IngressOf(GetDict(FieldsOf(Environments(spec)[i]), "ingress")))
  }

  /** A config update that names no certificate field and drops no ingress block leaves an
      environment's certificate as it was, exactly when a field decides it or the update leaves
      the same legacy annotation in force. */
  lemma UpdateKeepsCertificates(
    spec: Fields, patch: Fields, i: nat, k: nat, globalIssuer: string, secret: string)
    requires Named(Environments(spec)) && i < |Environments(spec)| && KeepsIngress(patch)
    requires k < |MergedEnvironments(spec, patch)| && MergedEnvironments(spec, patch)[k].Dict?
    requires NameOf(MergedEnvironments(spec, patch)[k]) == NameOf(Environments(spec)[i])
    requires "environments" !in patch || KeepsEnvIngress(MergedEnvironments(spec, patch)[k], Environments(spec)[i])
    ensures k < |Environments(Updated(spec, patch))| &&
      (CertOf(Updated(spec, patch), k, globalIssuer, secret) == CertOf(spec, i, globalIssuer, secret) <==>
        SettledFor(spec, i) || LegacyBefore(spec, i) == LegacyAfter(spec, patch, k))
  {
    if "environments" !in patch {
      MergedEnvironmentsAre(spec, patch);
      SameNameSameEntry(Environments(spec), i, k);
    }
    AppSelectionKept(spec, patch);
    EnvSelectionKept(spec, patch, i, k);
    hide Updated, MergedEnvironments, Named, NamesNoCert, IngressOf, SameSelection, Settled, Legacy, ResolveCertConfig;
    var app, app' := IngressOf(GetDict(spec, "ingress")), IngressOf(GetDict(Updated(spec, patch), "ingress"));
    var env := IngressOf(GetDict(FieldsOf(Environments(spec)[i]), "ingress"));
    var env' := IngressOf(GetDict(FieldsOf(Environments(Updated(spec, patch))[k]), "ingress"));
    SelectionDecides(app, env, app', env', globalIssuer, secret);
    LegacyReads(app', env', IngressOf(if "ingress" in patch then GetDict(patch, "ingress") else GetDict(spec, "ingress")),
                IngressOf(GetDict(FieldsOf(MergedEnvironments(spec, patch)[k]), "ingress")));
  }

  lemma SameNameSameEntry(envs: seq<Value>, i: nat, k: nat)
    requires i < |envs| && k < |envs| && Named(envs) && NameOf(envs[i]) == NameOf(envs[k])
    ensures i == k
  {}

  lemma LegacyReads(app: Ingress, env: Ingress, app': Ingress, env': Ingress)
    requires app.annotation == app'.annotation && env.annotation == env'.annotation
    ensures Legacy(app, env) == Legacy(app', env')
  {}

  // ---------- Validation keeps new annotations out ----------

  predicate AnnotationAllowed(incoming: Option<Fields>, existing: Option<Fields>)
  {
    var now := OrEmpty(GetDict(OrEmpty(incoming), "annotations"));
    var was := OrEmpty(GetDict(OrEmpty(existing), "annotations"));
    ISSUER_ANNOTATION in now ==> Given(was, ISSUER_ANNOTATION) == Some(now[ISSUER_ANNOTATION])
  }

  ghost predicate EnvAnnotationsAllowed(patchEnvs: seq<Value>, envs: seq<Value>)
  {
    forall v | v in patchEnvs && v.Dict? :: AnnotationAllowed(GetDict(v.fields, "ingress"), StoredIngress(envs, NameOf(v)))
  }

  ghost predicate AnnotationsAllowed(patch: Fields, spec: Fields)
  {
    AnnotationAllowed(GetDict(patch, "ingress"), GetDict(spec, "ingress")) &&
    EnvAnnotationsAllowed(GetList(patch, "environments"), Environments(spec))
  }

  ghost predicate IndexesIngress(index: map<string, Fields>, envs: seq<Value>)
  {
    forall n :: (if n in index then Some(index[n]) else None) == StoredIngress(envs, n)
  }

  method IndexIngress(envs: seq<Value>) returns (index: map<string, Fields>)
    ensures IndexesIngress(index, envs)
  {
    index := map[];
    for i := 0 to |envs|
      invariant IndexesIngress(index, envs[..i])
    {
      assert envs[..i + 1][..i] == envs[..i];
      if envs[i].Dict? {
        var ingress := GetDict(envs[i].fields, "ingress");
        if ingress.Some? {
          index := index[GetString(envs[i].fields, "name") := ingress.value];
        }
      }
    }
    assert envs[..|envs|] == envs;
  }

  lemma EnvAllowedStep(front: seq<Value>, v: Value, rest: seq<Value>, envs: seq<Value>)
    ensures EnvAnnotationsAllowed(front + [v] + rest, envs) ==>
      v.Dict? ==> AnnotationAllowed(GetDict(v.fields, "ingress"), StoredIngress(envs, NameOf(v)))
    ensures EnvAnnotationsAllowed(front + [v], envs) <==>
      EnvAnnotationsAllowed(front, envs) && (v.Dict? ==> AnnotationAllowed(GetDict(v.fields, "ingress"), StoredIngress(envs, NameOf(v))))
  {
    hide AnnotationAllowed, StoredIngress;
    assert v in front + [v] + rest && v in front + [v] && forall w | w in front :: w in front + [v];
  }

  method CheckEnvAnnotations(patchEnvs: seq<Value>, index: map<string, Fields>, ghost envs: seq<Value>) returns (ok: bool)
    requires IndexesIngress(index, envs)
    ensures ok <==> EnvAnnotationsAllowed(patchEnvs, envs)
  {
    assert EnvAnnotationsAllowed([], envs);
    hide AnnotationAllowed, StoredIngress, EnvAnnotationsAllowed;
    for i := 0 to |patchEnvs|
      invariant EnvAnnotationsAllowed(patchEnvs[..i], envs)
    {
      var v := patchEnvs[i];
      EnvAllowedStep(patchEnvs[..i], v, patchEnvs[i + 1..], envs);
      assert patchEnvs[..i + 1] == patchEnvs[..i] + [v] && patchEnvs == patchEnvs[..i] + [v] + patchEnvs[i + 1..];
      if v.Dict? {
        var name := GetString(v.fields, "name");
        if !AnnotationAllowed(GetDict(v.fields, "ingress"), if name in index then Some(index[name]) else None) {
          return false;
        }
      }
    }
    assert patchEnvs[..|patchEnvs|] == patchEnvs;
    return true;
  }

  method ValidateIngressCertAnnotations(patch: Fields, spec: Fields) returns (ok: bool)
    ensures ok <==> AnnotationsAllowed(patch, spec)
  {
    if !AnnotationAllowed(GetDict(patch, "ingress"), GetDict(spec, "ingress")) {
      return false;
    }
    var index := IndexIngress(GetList(spec, "environments"));
    ok := CheckEnvAnnotations(GetList(patch, "environments"), index, GetList(spec, "environments"));
  }

  /** An annotation that validation lets through is the stored one, so where none was stored
      none appears. */
  lemma AllowedAnnotationIsStored(incoming: Option<Fields>, existing: Option<Fields>)
    requires AnnotationAllowed(incoming, existing)
    ensures IngressOf(incoming).annotation in {"", IngressOf(existing).annotation}
  {}

  /** With no legacy annotation stored, a validated update that names no certificate field and
      drops no ingress block keeps every certificate. */
  lemma ValidatedUpdateKeepsCertificates(
    spec: Fields, patch: Fields, i: nat, k: nat, globalIssuer: string, secret: string)
    requires AnnotationsAllowed(patch, spec) && Named(Environments(spec)) && i < |Environments(spec)| && KeepsIngress(patch)
    requires "environments" in patch && patch["environments"].List? && k < |patch["environments"].items|
    requires var v := patch["environments"].items[k];
      v.Dict? && NameOf(v) == NameOf(Environments(spec)[i]) && KeepsEnvIngress(v, Environments(spec)[i])
    requires LegacyBefore(spec, i) == ""
    ensures k < |Environments(Updated(spec, patch))| &&
      CertOf(Updated(spec, patch), k, globalIssuer, secret) == CertOf(spec, i, globalIssuer, secret)
  {
    var v := patch["environments"].items[k];
    MergedEnvironmentsAre(spec, patch);
    RestoringImageKeeps(v, StoredImage(Environments(spec), NameOf(v)));
    StoredIngressAt(Environments(spec), i);
    assert v in GetList(patch, "environments");
    assert EnvAnnotationsAllowed(GetList(patch, "environments"), Environments(spec));
    AllowedAnnotationIsStored(GetDict(v.fields, "ingress"), GetDict(FieldsOf(Environments(spec)[i]), "ingress"));
    AllowedAnnotationIsStored(GetDict(patch, "ingress"), GetDict(spec, "ingress"));
    hide Updated, Named, StoredImage, RestoreImage, NamesNoCert, Settled, AnnotationAllowed, IngressOf, StoredIngress,
         ResolveCertConfig;
    UpdateKeepsCertificates(spec, patch, i, k, globalIssuer, secret);
  }

  /** And so does one that lists no environments, for every environment. */
  lemma ValidatedUnlistedUpdateKeepsCertificates(spec: Fields, patch: Fields, k: nat, globalIssuer: string, secret: string)
    requires AnnotationsAllowed(patch, spec) && Named(Environments(spec)) && k < |Environments(spec)| && KeepsIngress(patch)
    requires "environments" !in patch && LegacyBefore(spec, k) == ""
    ensures k < |Environments(Updated(spec, patch))| &&
      CertOf(Updated(spec, patch), k, globalIssuer, secret) == CertOf(spec, k, globalIssuer, secret)
  {
    MergedEnvironmentsAre(spec, patch);
    AllowedAnnotationIsStored(GetDict(patch, "ingress"), GetDict(spec, "ingress"));
    hide Updated, NamesNoCert, Settled, AnnotationAllowed, IngressOf, StoredIngress, ResolveCertConfig;
    UpdateKeepsCertificates(spec, patch, k, k, globalIssuer, secret);
  }

  lemma RestoringImageKeeps(v: Value, stored: Option<Value>)
    ensures NameOf(RestoreImage(v, stored)) == NameOf(v) && (RestoreImage(v, stored).Dict? <==> v.Dict?)
    ensures GetDict(FieldsOf(RestoreImage(v, stored)), "ingress") == GetDict(FieldsOf(v), "ingress")
  {}

  // ---------- The spec that is sent, field by field ----------

  /** An app image that is a mapping replaces the stored one, but for a tag it leaves out. */
  lemma ImageMerges(spec: Fields, patch: Fields, field: string)
    requires "image" in patch && patch["image"].Dict?
    ensures var sent, given, tag := Updated(spec, patch), patch["image"].fields, GetString(OrEmpty(GetDict(spec, "image")), "tag");
      "image" in sent && sent["image"].Dict? &&
      At(sent["image"].fields, field) ==
        if field in given then Some(given[field]) else if field == "tag" && tag != "" then Some(Text(tag)) else None
  {
    hide RestoreCerts, MergeImages, MergeRuntime, Merge;
  }

  /** Any other image, and a runtime, ingress or list of environments of another shape, is replaced
      whole, removed by a null, or left. */
  lemma OddShapesReplace(spec: Fields, patch: Fields, field: string)
    requires match field
      case "image" => GetDict(patch, "image").None?
      case "runtime" => GetDict(patch, "runtime").None? || GetDict(spec, "runtime").None?
      case "ingress" => "ingress" in patch && !patch["ingress"].Dict?
      case "environments" => "environments" in patch && !patch["environments"].List?
      case _ => false
    ensures At(Updated(spec, patch), field) == if field in patch then Given(patch, field) else At(spec, field)
  {
    hide StoredImage, StoredCerts, MergeCerts, RestoreImages, RestoreEnvCerts;
  }

  /** One field of an ingress block that is sent: the patch's own, and of the selection, where the
      patch leaves it out, what was stored and not empty. */
  function SentCertField(given: Fields, stored: Fields, field: string): Option<Value>
  {
    if field !in {"clusterIssuer", "tlsSecretName", "tlsMode"} then At(given, field)
    else if field in given then Given(given, field)
    else if Given(stored, field) == Some(Text("")) then None
    else Given(stored, field)
  }

  lemma MergedCertField(given: Fields, stored: Fields, field: string)
    ensures At(MergeCerts(given, Pick(stored)), field) == SentCertField(given, stored, field)
  {
    assert CERT_FIELDS[0] == "clusterIssuer" && CERT_FIELDS[1] == "tlsSecretName" && CERT_FIELDS[2] == "tlsMode";
    assert field in CERT_FIELDS <==> field in {"clusterIssuer", "tlsSecretName", "tlsMode"};
  }

  /** The app-level ingress block of a patch. */
  lemma IngressMerges(spec: Fields, patch: Fields, field: string)
    requires Named(Environments(spec)) && "ingress" in patch && patch["ingress"].Dict?
    ensures GetDict(Updated(spec, patch), "ingress").Some? &&
      At(GetDict(Updated(spec, patch), "ingress").value, field) ==
        SentCertField(patch["ingress"].fields, OrEmpty(GetDict(spec, "ingress")), field)
  {
    SentIngress(spec, patch);
    MergedCertField(patch["ingress"].fields, OrEmpty(GetDict(spec, "ingress")), field);
    hide Updated, MergeCerts, Pick, Named;
  }

  lemma RestoredImageFields(v: Value, stored: Option<Value>, field: string)
    requires v.Dict?
    ensures RestoreImage(v, stored).Dict? && At(RestoreImage(v, stored).fields, field) ==
      if field != "image" then At(v.fields, field)
      else if field in v.fields then Given(v.fields, field)
      else stored
  {}

  lemma RestoredCertFields(v: Value, stored: Fields, field: string)
    requires v.Dict?
    ensures RestoreCertsOf(v, stored).Dict?
    ensures field != "ingress" || GetDict(v.fields, "ingress").None? ==>
      At(RestoreCertsOf(v, stored).fields, field) == At(v.fields, field)
    ensures GetDict(v.fields, "ingress").Some? ==>
      GetDict(RestoreCertsOf(v, stored).fields, "ingress") == Some(MergeCerts(GetDict(v.fields, "ingress").value, stored))
  {
    hide MergeCerts;
  }

  /** The stored entry of a name, and its image and ingress; none when no entry has the name. */
  ghost predicate IsStored(spec: Fields, name: string, stored: Fields)
  {
    if exists w | w in Environments(spec) :: NameOf(w) == name
    then exists w | w in Environments(spec) :: NameOf(w) == name && stored == FieldsOf(w)
    else stored == map[]
  }

  lemma StoredPartsOf(spec: Fields, name: string, stored: Fields)
    requires Named(Environments(spec)) && name != "" && IsStored(spec, name, stored)
    ensures StoredImage(Environments(spec), name) == Given(stored, "image")
    ensures StoredCerts(spec, name) == Pick(OrEmpty(GetDict(stored, "ingress")))
  {
    var envs := Environments(spec);
    assert Pick(map[]) == map[];
    if w :| w in envs && NameOf(w) == name && stored == FieldsOf(w) {
      var i :| 0 <= i < |envs| && envs[i] == w;
      StoredImageAt(envs, i);
      StoredIngressAt(envs, i);
    } else {
      NoOtherImage(envs, name);
      NoOtherIngress(envs, name);
    }
    hide Pick;
  }

  lemma SentEntry(spec: Fields, patch: Fields, k: nat)
    requires "environments" in patch && patch["environments"].List? && k < |patch["environments"].items|
    ensures var envs := Environments(Updated(spec, patch));
      var v := patch["environments"].items[k];
      |envs| == |patch["environments"].items| &&
      envs[k] == RestoreCertsOf(RestoreImage(v, StoredImage(Environments(spec), NameOf(v))), StoredCerts(spec, NameOf(v)))
  {
    SentEnvironments(spec, patch);
    MergedEnvironmentsAre(spec, patch);
    var v := patch["environments"].items[k];
    RestoringImageKeeps(v, StoredImage(Environments(spec), NameOf(v)));
    hide Updated, MergedEnvironments, RestoreImage, RestoreCertsOf, StoredCerts, StoredImage;
  }

  /** A listed environment is sent as the patch gives it, but that an image it leaves out is the
      stored one. */
  lemma EntryMerges(spec: Fields, patch: Fields, k: nat, stored: Fields, field: string)
    requires "environments" in patch && patch["environments"].List? && k < |patch["environments"].items|
    requires var v := patch["environments"].items[k];
      v.Dict? && NameOf(v) != "" && IsStored(spec, NameOf(v), stored) && Named(Environments(spec))
    requires field != "ingress" || GetDict(patch["environments"].items[k].fields, "ingress").None?
    ensures var given, sent := patch["environments"].items[k].fields, Environments(Updated(spec, patch));
      k < |sent| && sent[k].Dict? && At(sent[k].fields, field) ==
        if field != "image" then At(given, field)
        else if field in given then Given(given, field)
        else Given(stored, field)
  {
    var v := patch["environments"].items[k];
    SentEntry(spec, patch, k);
    StoredPartsOf(spec, NameOf(v), stored);
    hide Updated, Named, StoredImage, StoredCerts, RestoreImage, RestoreCertsOf, IsStored, Pick;
    var image, certs := StoredImage(Environments(spec), NameOf(v)), StoredCerts(spec, NameOf(v));
    RestoredImageFields(v, image, field);
    RestoredImageFields(v, image, "ingress");
    RestoredCertFields(RestoreImage(v, image), certs, field);
  }

  /** And its ingress block keeps the selection it leaves out. */
  lemma EntryIngressMerges(spec: Fields, patch: Fields, k: nat, stored: Fields, field: string)
    requires "environments" in patch && patch["environments"].List? && k < |patch["environments"].items|
    requires var v := patch["environments"].items[k];
      v.Dict? && NameOf(v) != "" && IsStored(spec, NameOf(v), stored) && Named(Environments(spec))
    requires GetDict(patch["environments"].items[k].fields, "ingress").Some?
    ensures var given, sent := GetDict(patch["environments"].items[k].fields, "ingress").value, Environments(Updated(spec, patch));
      k < |sent| && sent[k].Dict? && GetDict(sent[k].fields, "ingress").Some? &&
      At(GetDict(sent[k].fields, "ingress").value, field) == SentCertField(given, OrEmpty(GetDict(stored, "ingress")), field)
  {
    var v := patch["environments"].items[k];
    SentEntry(spec, patch, k);
    StoredPartsOf(spec, NameOf(v), stored);
    MergedCertField(GetDict(v.fields, "ingress").value, OrEmpty(GetDict(stored, "ingress")), field);
    hide Updated, Named, StoredImage, StoredCerts, RestoreImage, RestoreCertsOf, IsStored, Pick, MergeCerts, SentCertField;
    var image, certs := StoredImage(Environments(spec), NameOf(v)), StoredCerts(spec, NameOf(v));
    RestoredImageFields(v, image, "ingress");
    RestoredCertFields(RestoreImage(v, image), certs, "ingress");
  }

  /** An entry that is no mapping is sent as it is, and no entry is added or dropped. */
  lemma OddEntriesStay(spec: Fields, patch: Fields, k: nat)
    requires "environments" in patch && patch["environments"].List? && k < |patch["environments"].items|
    requires !patch["environments"].items[k].Dict?
    ensures var sent := Environments(Updated(spec, patch));
      |sent| == |patch["environments"].items| && sent[k] == patch["environments"].items[k]
  {
    SentEntry(spec, patch, k);
    hide Updated, StoredImage, StoredCerts, MergeCerts;
  }

  /** Environments the patch does not list are sent as they are stored. */
  lemma UnlistedEntriesStay(spec: Fields, patch: Fields, k: nat, field: string)
    requires "environments" !in patch && k < |Environments(spec)| && Environments(spec)[k].Dict? && Named(Environments(spec))
    requires field != "ingress"
    ensures var was, sent := Environments(spec), Environments(Updated(spec, patch));
      |sent| == |was| && sent[k].Dict? && At(sent[k].fields, field) == At(was[k].fields, field)
  {
    SentEnvironments(spec, patch);
    MergedEnvironmentsAre(spec, patch);
    var v := Environments(spec)[k];
    RestoredCertFields(v, StoredCerts(spec, NameOf(v)), field);
    hide Updated, MergedEnvironments, RestoreCertsOf, StoredCerts;
  }

  /** After an attempt the patch itself holds what was sent for the blocks the merge edits in place,
      and is otherwise as it came. */
  lemma EditedPatchHoldsWhatWasSent(spec: Fields, patch: Fields, field: string)
    ensures At(Edited(spec, patch), field) ==
      if field in patch && ((field == "environments" && patch[field].List?) || (field in {"ingress", "image"} && patch[field].Dict?))
      then At(Updated(spec, patch), field) else At(patch, field)
  {
    hide StoredImage, StoredCerts, MergeCerts, RestoreImages, RestoreEnvCerts, KeepTag;
  }

  // ---------- Which patches validation accepts ----------

  /** The legacy issuer annotation of an ingress block. */
  function IssuerAnnotation(ingress: Option<Fields>): Option<Value>
  {
    At(OrEmpty(GetDict(OrEmpty(ingress), "annotations")), "cert-manager.io/cluster-issuer")
  }

  predicate NoNewAnnotation(given: Option<Fields>, stored: Option<Fields>)
  {
    IssuerAnnotation(given).None? || (IssuerAnnotation(given) == IssuerAnnotation(stored) && IssuerAnnotation(given) != Some(Null))
  }

  lemma AllowedIsNotNew(given: Option<Fields>, stored: Option<Fields>)
    ensures AnnotationAllowed(given, stored) <==> NoNewAnnotation(given, stored)
  {}

  lemma StoredIngressOf(spec: Fields, name: string, stored: Fields)
    requires Named(Environments(spec)) && IsStored(spec, name, stored)
    ensures StoredIngress(Environments(spec), name) == GetDict(stored, "ingress")
  {
    var envs := Environments(spec);
    if w :| w in envs && NameOf(w) == name && stored == FieldsOf(w) {
      var i :| 0 <= i < |envs| && envs[i] == w;
      StoredIngressAt(envs, i);
    } else {
      NoOtherIngress(envs, name);
    }
  }

  /** What is stored under a name. */
  function StoredUnder(spec: Fields, name: string): Fields
  {
    if exists w | w in Environments(spec) :: NameOf(w) == name
    then FieldsOf(FirstOfName(Environments(spec), name)) else map[]
  }

  function FirstOfName(envs: seq<Value>, name: string): (v: Value)
    requires exists w | w in envs :: NameOf(w) == name
    ensures v in envs && NameOf(v) == name
  {
    if NameOf(envs[0]) == name then envs[0] else FirstOfName(envs[1..], name)
  }

  /** The app-level block and every listed environment's own leave the annotation out or repeat the
      stored one. */
  ghost predicate NothingNew(patch: Fields, spec: Fields)
  {
    NoNewAnnotation(GetDict(patch, "ingress"), GetDict(spec, "ingress")) &&
    forall v | v in GetList(patch, "environments") && v.Dict? ::
      NoNewAnnotation(GetDict(v.fields, "ingress"), GetDict(StoredUnder(spec, NameOf(v)), "ingress"))
  }

  /** Validation accepts exactly the patches with no annotation but stored ones, when the stored
      environments have names of their own. */
  lemma AcceptsExactlyStoredAnnotations(patch: Fields, spec: Fields)
    requires Named(Environments(spec))
    ensures AnnotationsAllowed(patch, spec) <==> NothingNew(patch, spec)
  {
    AllowedIsNotNew(GetDict(patch, "ingress"), GetDict(spec, "ingress"));
    hide AnnotationAllowed, NoNewAnnotation, Named, StoredIngress;
    forall v | v in GetList(patch, "environments") && v.Dict?
      ensures AnnotationAllowed(GetDict(v.fields, "ingress"), StoredIngress(Environments(spec), NameOf(v))) <==>
        NoNewAnnotation(GetDict(v.fields, "ingress"), GetDict(StoredUnder(spec, NameOf(v)), "ingress"))
    {
      StoredIngressOf(spec, NameOf(v), StoredUnder(spec, NameOf(v)));
      AllowedIsNotNew(GetDict(v.fields, "ingress"), StoredIngress(Environments(spec), NameOf(v)));
    }
  }

  // ---------- A deploy that a retried update undoes ----------

  function ProdWith(tag: string): Fields
  {
    map["environments" := List([Dict(map["name" := Text("prod"), "image" := Dict(map["tag" := Text(tag)])])])]
  }

  /** The first attempt reads tag v1 and meets a conflict with the deploy of v2; the second
      attempt, on the copy that has v2, sends v1 again. */
  lemma RetryUndoesADeploy()
    ensures var patch: Fields := map["environments" := List([Dict(map["name" := Text("prod")])])];
      var sent := Updated(ProdWith("v2"), Edited(ProdWith("v1"), patch));
      Carries(sent, 0, "prod", Some(Dict(map["tag" := Text("v1")])))
  {
    var patch: Fields := map["environments" := List([Dict(map["name" := Text("prod")])])];
    var v1 := Environments(ProdWith("v1"));
    assert v1[..0] == [];
    assert StoredImage(v1, "prod") == Some(Dict(map["tag" := Text("v1")]));
    assert Carries(patch, 0, "prod", None);
    AttemptCarries(ProdWith("v1"), patch, 0, "prod", None);
    AttemptCarries(ProdWith("v2"), Edited(ProdWith("v1"), patch), 0, "prod", StoredImage(v1, "prod"));
    hide Updated, Edited, StoredImage;
  }
}
