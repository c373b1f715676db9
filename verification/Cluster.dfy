/** The Kubernetes API server as the handlers see it: a store of objects that can be read,
    listed and created. */
module Cluster {
  import opened Json
  import opened Text

  const SYSTEM := "vesta-system"

  datatype Kind = VestaProject | VestaApp | VestaSecret | ConfigMap | Namespace

  datatype Key = Key(kind: Kind, namespace: string, name: string)

  /** body is what the handlers read of an object: the spec of a custom resource, the data of
      a ConfigMap. A body that is absent reads as an empty one. */
  datatype Object = Object(labels: map<string, string>, body: Fields)

  type Store = map<Key, Object>

  function NamespaceKey(name: string): Key { Key(Namespace, "", name) }

  /** Namespaces themselves live in no namespace. */
  predicate HasHome(store: Store, key: Key)
  {
    key.kind == Namespace || NamespaceKey(key.namespace) in store
  }

  function Label(o: Object, name: string): string
  {
    if name in o.labels then o.labels[name] else ""
  }

  /** An object of the store; an absent one reads as empty. */
  function Read(store: Store, key: Key): Object
  {
    if key in store then store[key] else Object(map[], map[])
  }

  datatype ApiError = AlreadyExists(key: Key) | NamespaceMissing(key: Key) | Unavailable

  // ---------- The order of a listing ----------

  predicate KeyLe(a: Key, b: Key)
  {
    if a.namespace == b.namespace then StrLe(a.name, b.name) else StrLe(a.namespace, b.namespace)
  }

  ghost predicate OneKind(keys: set<Key>) { forall a, b | a in keys && b in keys :: a.kind == b.kind }

  predicate IsLeast(k: Key, keys: set<Key>) { k in keys && forall j | j in keys :: KeyLe(k, j) }

  lemma KeyLeAntisymmetric(a: Key, b: Key)
    requires KeyLe(a, b) && KeyLe(b, a) && a.kind == b.kind
    ensures a == b
  {
    if a.namespace == b.namespace {
      StrLeAntisymmetric(a.name, b.name);
    } else {
      StrLeAntisymmetric(a.namespace, b.namespace);
    }
  }

  lemma KeyLeTransitive(a: Key, b: Key, c: Key)
    requires KeyLe(a, b) && KeyLe(b, c)
    ensures KeyLe(a, c)
  {
    if a.namespace == b.namespace == c.namespace {
      StrLeTransitive(a.name, b.name, c.name);
    } else {
      StrLeReflexive(a.namespace);
      StrLeReflexive(b.namespace);
      StrLeTransitive(a.namespace, b.namespace, c.namespace);
      if a.namespace == c.namespace {
        StrLeAntisymmetric(a.namespace, b.namespace);
      }
    }
  }

  lemma StrLeReflexive(a: string)
    ensures StrLe(a, a)
  {
    StrLeTotal(a, a);
  }

  lemma {:induction false} LeastExists(keys: set<Key>)
    requires keys != {}
    ensures exists k :: k in keys && IsLeast(k, keys)
  {
    var k :| k in keys;
    StrLeReflexive(k.name);
    if keys == {k} {
      assert IsLeast(k, keys);
    } else {
      var others := keys - {k};
      LeastExists(others);
      var j :| j in others && IsLeast(j, others);
      assert forall i | i in keys :: i == k || i in others;
      StrLeTotal(k.name, j.name);
      StrLeTotal(k.namespace, j.namespace);
      if KeyLe(k, j) {
        forall i | i in keys ensures KeyLe(k, i) {
          if i != k { KeyLeTransitive(k, j, i); }
        }
        assert IsLeast(k, keys);
      } else {
        assert IsLeast(j, keys);
      }
    }
  }

  ghost function Least(keys: set<Key>): (k: Key)
    requires keys != {}
    ensures IsLeast(k, keys)
  {
    LeastExists(keys);
    var k :| IsLeast(k, keys);
    k
  }

  lemma LeastIsUnique(k: Key, keys: set<Key>)
    requires OneKind(keys) && IsLeast(k, keys)
    ensures k == Least(keys)
  {
    KeyLeAntisymmetric(k, Least(keys));
  }

  /** The keys of a listing in the order the server returns them. */
  ghost function Listing(keys: set<Key>): seq<Key>
  {
    if keys == {} then [] else [Least(keys)] + Listing(keys - {Least(keys)})
  }

  lemma {:induction false} ListingIsExact(keys: set<Key>)
    ensures forall k :: k in Listing(keys) <==> k in keys
    ensures forall i, j | 0 <= i < j < |Listing(keys)| :: Listing(keys)[i] != Listing(keys)[j]
  {
    if keys != {} {
      ListingIsExact(keys - {Least(keys)});
    }
  }

  /** By namespace, and by name within one. */
  lemma {:induction false} ListingIsSorted(keys: set<Key>)
    ensures forall i, j | 0 <= i < j < |Listing(keys)| :: KeyLe(Listing(keys)[i], Listing(keys)[j])
  {
    if keys != {} {
      ListingIsSorted(keys - {Least(keys)});
      ListingIsExact(keys - {Least(keys)});
      forall k | k in Listing(keys - {Least(keys)}) ensures KeyLe(Least(keys), k) {}
      hide KeyLe;
    }
  }

  predicate Selects(labels: map<string, string>, o: Object)
  {
    forall l | l in labels :: l in o.labels && o.labels[l] == labels[l]
  }

  /** The keys a list request for a kind, in one namespace or in all, selects. */
  ghost function Matching(store: Store, kind: Kind, namespace: Option<string>, labels: map<string, string>): set<Key>
  {
    set k | k in store && k.kind == kind && (namespace.None? || k.namespace == namespace.value) &&
      Selects(labels, store[k])
  }

  // ---------- The server ----------

  class ApiServer {
    var objects: Store
    /** Requests the server will fail to serve, by number. */
    const outage: nat -> bool
    var requests: nat

    constructor (objects: Store, outage: nat -> bool)
      ensures this.objects == objects && this.outage == outage && requests == 0
    {
      this.objects := objects;
      this.outage := outage;
      requests := 0;
    }

    method Create(key: Key, o: Object) returns (error: Option<ApiError>)
      modifies this
      ensures error == None ==>
        key !in old(objects) && HasHome(old(objects), key) && objects == old(objects)[key := o]
      ensures error != None ==> objects == old(objects)
      ensures error == Some(AlreadyExists(key)) ==> key in old(objects)
      ensures error == Some(NamespaceMissing(key)) ==> !HasHome(old(objects), key)
      ensures error in {None, Some(AlreadyExists(key)), Some(NamespaceMissing(key)), Some(Unavailable)}
      ensures error == Some(Unavailable) ==> outage(old(requests))
      ensures requests == old(requests) + 1
    {
      requests := requests + 1;
      if outage(requests - 1) {
        return Some(Unavailable);
      }
      if key.kind != Namespace && NamespaceKey(key.namespace) !in objects {
        return Some(NamespaceMissing(key));
      }
      if key in objects {
        return Some(AlreadyExists(key));
      }
      objects := objects[key := o];
      error := None;
    }

    method List(kind: Kind, namespace: Option<string>, labels: map<string, string>) returns (items: seq<Key>)
      ensures items == Listing(Matching(objects, kind, namespace, labels))
    {
      hide IsLeast, KeyLe, Selects;
      var rest := set k | k in objects && k.kind == kind &&
        (namespace.None? || k.namespace == namespace.value) && Selects(labels, objects[k]);
      assert rest == Matching(objects, kind, namespace, labels);
      ghost var all := rest;
      hide Matching;
      items := [];
      while rest != {}
        invariant OneKind(rest)
        invariant items + Listing(rest) == Listing(all)
        decreases rest
      {
        LeastExists(rest);
        var k :| k in rest && IsLeast(k, rest);
        LeastIsUnique(k, rest);
        items := items + [k];
        rest := rest - {k};
      }
    }
  }
}
