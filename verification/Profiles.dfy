/**
  Merging and inheriting profiles (tools/render_manifest.py: `deep_merge`, `resolve_profile`).

  A YAML value is a scalar, a list or a mapping.  Mappings compare without regard to the order
  of their keys, as Python dictionaries do.
 */
module Profiles {
  import opened Common

  datatype Value =
    | Scalar(text: string)
    | List(items: seq<Value>)
    | Dict(fields: map<string, Value>)

  const EMPTY: Value := Dict(map[])

  type Mapping = v: Value | v.Dict? witness EMPTY

  /** The keys whose lists add up along the inheritance chain; every other list is replaced. */
  const APPENDED_KEYS: set<string> :=
    {"add", "remove", "bundles", "apps", "remotes", "repositories", "debs", "appimages", "playbooks",
     "first_boot_roles", "allowed_groups", "autostart"}

  // ----------------------------------------------------------------- merging

  /** Whether, under this key, the second value joins the first instead of replacing it. */
  predicate Joins(key: string, a: Value, b: Value) {
    (a.Dict? && b.Dict?) || (a.List? && b.List? && key in APPENDED_KEYS)
  }

  function MergeAt(key: string, a: Value, b: Value): Value
    decreases a, 1
  {
    if a.Dict? && b.Dict? then Merge(a, b)
    else if a.List? && b.List? && key in APPENDED_KEYS then List(AppendNew(a.items, b.items))
    else b
  }

  /** deep_merge. */
  function Merge(a: Value, b: Value): (m: Value)
    requires a.Dict? && b.Dict?
    ensures m.Dict? && m.fields.Keys == a.fields.Keys + b.fields.Keys
    decreases a, 0
  {
    Dict(map k | k in a.fields.Keys + b.fields.Keys ::
           if k !in b.fields then a.fields[k]
           else if k !in a.fields then b.fields[k]
           else MergeAt(k, a.fields[k], b.fields[k]))
  }

  /** The loops of deep_merge: a copy of the first mapping is filled in key by key. */
  method DeepMerge(base: Value, override: Value) returns (out: Value)
    requires base.Dict? && override.Dict?
    ensures out == Merge(base, override)
    decreases base
  {
    var fields := base.fields;
    var todo := override.fields.Keys;
    while todo != {}
      invariant todo <= override.fields.Keys
      invariant fields.Keys == base.fields.Keys + (override.fields.Keys - todo)
      invariant forall k :: k in fields ==>
                  fields[k] == if k in todo || k !in override.fields then base.fields[k]
                               else Merge(base, override).fields[k]
      decreases todo
    {
      var key :| key in todo;
      todo := todo - {key};
      var value := override.fields[key];
      if key in fields && value.Dict? && fields[key].Dict? {
        var merged := DeepMerge(base.fields[key], value);
        fields := fields[key := merged];
      } else if key in fields && value.List? && fields[key].List? && key in APPENDED_KEYS {
        var merged := AppendItems(fields[key].items, value.items);
        fields := fields[key := List(merged)];
      } else {
        fields := fields[key := value];
      }
    }
    out := Dict(fields);
  }

  // ------------------------------------------- what a merged tree says, by path

  /** What a tree has at a path of keys. */
  function At(v: Value, path: seq<string>): Option<Value>
    decreases |path|
  {
    if path == [] then Some(v)
    else if v.Dict? && path[0] in v.fields then At(v.fields[path[0]], path[1..])
    else None
  }

  /** A scalar or list on the way to the path. */
  predicate Blocks(v: Value, path: seq<string>)
    decreases |path|
  {
    path != [] && (!v.Dict? || (path[0] in v.fields && Blocks(v.fields[path[0]], path[1..])))
  }

  /** What is left where the second tree has a scalar or list: that, or the two lists together. */
  function Kept(key: string, before: Option<Value>, leaf: Value): Value {
    if before.Some? && before.value.List? && leaf.List? && key in APPENDED_KEYS
    then List(AppendNew(before.value.items, leaf.items))
    else leaf
  }

  lemma {:induction false} BlockedIsNothing(v: Value, path: seq<string>)
    requires Blocks(v, path)
    ensures At(v, path) == None
    decreases |path|
  {
    if v.Dict? {
      BlockedIsNothing(v.fields[path[0]], path[1..]);
    }
  }

  lemma LeafBlocks(v: Value, path: seq<string>)
    ensures !v.Dict? && path != [] ==> At(v, path) == None && Blocks(v, path)
    ensures path == [] ==> At(v, path) == Some(v) && !Blocks(v, path)
  {}

  /**
    At every path: what the second tree says wins, a list that adds up keeps what was before it,
    what the second tree does not mention stays, and where it puts a scalar or list nothing of
    the first tree is left below.
   */
  lemma {:induction false} MergedByPath(a: Value, b: Value, path: seq<string>)
    requires a.Dict? && b.Dict? && path != []
    ensures At(b, path).Some? && !At(b, path).value.Dict? ==>
              At(Merge(a, b), path) == Some(Kept(Last(path), At(a, path), At(b, path).value))
    ensures At(b, path) == None && !Blocks(b, path) ==> At(Merge(a, b), path) == At(a, path)
    ensures Blocks(b, path) ==> At(Merge(a, b), path) == None
    decreases |path|
  {
    var k, rest := path[0], path[1..];
    var m := Merge(a, b);
    assert rest != [] ==> Last(rest) == Last(path);
    if Blocks(b, path) {
      BlockedIsNothing(b, path);
    }
    if k in a.fields && k in b.fields {
      var x, y := a.fields[k], b.fields[k];
      assert m.fields[k] == MergeAt(k, x, y);
      if x.Dict? && y.Dict? && rest != [] {
        assert m.fields[k] == Merge(x, y);
        MergedByPath(x, y, rest);
      } else {
        LeafBlocks(x, rest);
        LeafBlocks(y, rest);
        LeafBlocks(m.fields[k], rest);
        assert y.Dict? && !x.Dict? ==> m.fields[k] == y;
        assert !y.Dict? ==> !m.fields[k].Dict?;
      }
    }
  }

  // -------------------------------------------------------- laws of merging

  lemma EmptyIsIdentity(a: Value)
    requires a.Dict?
    ensures Merge(EMPTY, a) == a && Merge(a, EMPTY) == a
  {
    assert Merge(EMPTY, a).fields == a.fields;
    assert Merge(a, EMPTY).fields == a.fields;
  }

  lemma {:induction false} MergeIsIdempotent(a: Value)
    requires a.Dict?
    ensures Merge(a, a) == a
  {
    forall k | k in a.fields
      ensures MergeAt(k, a.fields[k], a.fields[k]) == a.fields[k]
    {
      match a.fields[k]
      case Dict(_) => MergeIsIdempotent(a.fields[k]);
      case List(items) => AppendNothingNew(items, items);
      case Scalar(_) =>
    }
    assert Merge(a, a).fields == a.fields;
  }

  /**
    The second value already has all of the first: its mapping has the same keys and more, and its
    list goes on from the first one with items that are all new.
   */
  ghost predicate Absorbed(key: string, x: Value, z: Value)
    decreases x
  {
    match (x, z)
    case (Dict(xs), Dict(zs)) => forall k :: k in xs ==> k in zs && Absorbed(k, xs[k], zs[k])
    case (List(xs), List(zs)) => key in APPENDED_KEYS ==> xs <= zs && AllNew(xs, zs[|xs|..])
    case _ => true
  }

  /** Merging a value into another changes nothing exactly when it is absorbed already. */
  lemma {:induction false} AbsorbedExactly(key: string, x: Value, z: Value)
    ensures MergeAt(key, x, z) == z <==> Absorbed(key, x, z)
    decreases x
  {
    match (x, z)
    case (Dict(xs), Dict(zs)) =>
      var m := Merge(x, z);
      forall k | k in xs && k in zs
        ensures m.fields[k] == zs[k] <==> Absorbed(k, xs[k], zs[k])
      {
        AbsorbedExactly(k, xs[k], zs[k]);
      }
      assert m == z <==> m.fields.Keys == zs.Keys && forall k :: k in zs ==> m.fields[k] == zs[k];
      assert m.fields.Keys == zs.Keys <==> forall k :: k in xs ==> k in zs;
    case (List(xs), List(zs)) =>
      AppendNewElements(xs, zs);
      if xs <= zs {
        assert zs == xs + zs[|xs|..];
        AppendNewSplit(xs, xs, zs[|xs|..]);
        AppendNothingNew(xs, xs);
        AppendAllNew(xs, zs[|xs|..]);
      }
    case _ =>
  }

  /**
    Where three trees can be merged in either grouping.  The only obstacle is a key at which the
    middle tree replaces what the first has by a value of another kind, while the third goes back
    to the first kind and has not absorbed what the first has.
   */
  ghost predicate Regroupable(a: Value, b: Value, c: Value)
    requires a.Dict? && b.Dict? && c.Dict?
    decreases a, 0
  {
    forall k :: k in a.fields && k in b.fields && k in c.fields ==>
      RegroupableAt(k, a.fields[k], b.fields[k], c.fields[k])
  }

  ghost predicate RegroupableAt(k: string, x: Value, y: Value, z: Value)
    decreases x, 1
  {
    && (x.Dict? && y.Dict? && z.Dict? ==> Regroupable(x, y, z))
    && (Joins(k, x, z) && !Joins(k, x, y) ==> Absorbed(k, x, z))
  }

  /** deep_merge is associative on three trees exactly when they are regroupable. */
  lemma {:induction false} AssociativeExactlyWhen(a: Value, b: Value, c: Value)
    requires a.Dict? && b.Dict? && c.Dict?
    ensures Merge(Merge(a, b), c) == Merge(a, Merge(b, c)) <==> Regroupable(a, b, c)
    decreases a, 0
  {
    var l, r := Merge(Merge(a, b), c), Merge(a, Merge(b, c));
    forall k | k in l.fields
      ensures l.fields[k] == r.fields[k] <==>
              (k in a.fields && k in b.fields && k in c.fields ==>
               RegroupableAt(k, a.fields[k], b.fields[k], c.fields[k]))
    {
      if k in a.fields && k in b.fields && k in c.fields {
        RegroupAt(k, a.fields[k], b.fields[k], c.fields[k]);
      }
    }
    assert l.fields.Keys == r.fields.Keys;
    assert l == r <==> forall k :: k in l.fields ==> l.fields[k] == r.fields[k];
  }

  lemma {:induction false} RegroupAt(k: string, x: Value, y: Value, z: Value)
    ensures MergeAt(k, MergeAt(k, x, y), z) == MergeAt(k, x, MergeAt(k, y, z)) <==> RegroupableAt(k, x, y, z)
    decreases x, 1
  {
    AbsorbedExactly(k, x, z);
    if x.Dict? && y.Dict? && z.Dict? {
      AssociativeExactlyWhen(x, y, z);
    } else if x.List? && y.List? && z.List? && k in APPENDED_KEYS {
      AppendNewAssociative(x.items, y.items, z.items);
    }
  }

  predicate SameKind(a: Value, b: Value) {
    a.Dict? == b.Dict? && a.List? == b.List?
  }

  /** At every path where both trees have a value, the values are of one kind. */
  ghost predicate KindConsistent(a: Value, b: Value)
    requires a.Dict? && b.Dict?
    decreases a
  {
    forall k :: k in a.fields && k in b.fields ==>
      SameKind(a.fields[k], b.fields[k]) && (a.fields[k].Dict? ==> KindConsistent(a.fields[k], b.fields[k]))
  }

  lemma {:induction false} KindConsistentIsRegroupable(a: Value, b: Value, c: Value)
    requires a.Dict? && b.Dict? && c.Dict? && KindConsistent(a, b)
    ensures Regroupable(a, b, c)
    decreases a
  {
    forall k | k in a.fields && k in b.fields && k in c.fields
      ensures RegroupableAt(k, a.fields[k], b.fields[k], c.fields[k])
    {
      if a.fields[k].Dict? && b.fields[k].Dict? && c.fields[k].Dict? {
        KindConsistentIsRegroupable(a.fields[k], b.fields[k], c.fields[k]);
      }
    }
  }

  /** Profiles that agree on the kind of value at each path can be merged in any grouping. */
  lemma MergeIsAssociative(a: Value, b: Value, c: Value)
    requires a.Dict? && b.Dict? && c.Dict? && KindConsistent(a, b)
    ensures Merge(Merge(a, b), c) == Merge(a, Merge(b, c))
  {
    KindConsistentIsRegroupable(a, b, c);
    AssociativeExactlyWhen(a, b, c);
  }

  /** A scalar in the middle makes the grouping matter. */
  lemma GroupingMatters() returns (a: Value, b: Value, c: Value)
    ensures a.Dict? && b.Dict? && c.Dict?
    ensures Merge(Merge(a, b), c) != Merge(a, Merge(b, c))
  {
    var x, z := Dict(map["p" := Scalar("1")]), Dict(map["q" := Scalar("2")]);
    a, b, c := Dict(map["k" := x]), Dict(map["k" := Scalar("off")]), Dict(map["k" := z]);
    assert Merge(Merge(a, b), c).fields["k"] == z;
    assert Merge(a, Merge(b, c)).fields["k"] == Merge(x, z);
    assert "p" in Merge(x, z).fields;
  }

  // ------------------------------------------------------------- inheritance

  /**
    A profile file that can be read: the id it declares, the profile it extends, and the rest of
    its fields apart from `description`.  `valid` is the verdict of the schema.
   */
  datatype ProfileFile = ProfileFile(id: string, parent: Option<string>, body: map<string, Value>, valid: bool)

  type Files = map<string, ProfileFile>

  datatype ProfileError = Cycle(walk: seq<string>) | Unreadable(id: string) | SchemaError(id: string)
                        | WrongId(id: string)

  predicate HasParent(f: ProfileFile) {
    f.parent.Some? && f.parent.value != ""
  }

  /** resolve_profile: the merged fields and the chain of ids, ancestors first. */
  function Resolve(files: Files, id: string, seen: seq<string>): Result<(Mapping, seq<string>), ProfileError>
    decreases files.Keys - Elements(seen)
  {
    if id in seen then Err(Cycle(seen + [id]))
    else if id !in files then Err(Unreadable(id))
    else if !files[id].valid then Err(SchemaError(id))
    else if files[id].id != id then Err(WrongId(id))
    else if !HasParent(files[id]) then Ok((Dict(files[id].body), [id]))
    else
      ElementsAppend(seen, [id]);
      assert id in files.Keys - Elements(seen);
      match Resolve(files, files[id].parent.value, seen + [id])
      case Err(e) => Err(e)
      case Ok((parent, chain)) =>
        Ok((Merge(parent, Dict(files[id].body)), chain + [id]))
  }

  predicate Loads(files: Files, id: string) {
    id in files && files[id].valid && files[id].id == id
  }

  lemma ReverseSnoc<T>(s: seq<T>, x: T)
    ensures Reverse(s + [x]) == [x] + Reverse(s)
  {}

  lemma ReverseDistinct<T>(s: seq<T>)
    requires Distinct(Reverse(s))
    ensures Distinct(s)
  {
    forall i, j | 0 <= i < j < |s|
      ensures s[i] != s[j]
    {
      assert Reverse(s)[|s| - 1 - j] != Reverse(s)[|s| - 1 - i];
    }
  }

  /** A walk along `extends`: each file loads and names the next. */
  predicate IsLineage(files: Files, w: seq<string>) {
    w != [] && forall i :: 0 <= i < |w| - 1 ==> Extends(files, w, i)
  }

  predicate Extends(files: Files, w: seq<string>, i: nat)
    requires i < |w| - 1
  {
    Loads(files, w[i]) && HasParent(files[w[i]]) && files[w[i]].parent.value == w[i + 1]
  }

  function Reverse<T>(s: seq<T>): (r: seq<T>)
    ensures |r| == |s| && forall i :: 0 <= i < |s| ==> r[i] == s[|s| - 1 - i]
  {
    if s == [] then [] else Reverse(s[1..]) + [s[0]]
  }

  /** The bodies of a chain merged from the left, each over all before it. */
  function MergedBodies(files: Files, chain: seq<string>): (v: Mapping)
    requires chain != [] && forall id :: id in chain ==> id in files
  {
    if |chain| == 1 then Dict(files[chain[0]].body)
    else Merge(MergedBodies(files, Init(chain)), Dict(files[Last(chain)].body))
  }

  /** What the outcome of resolve_profile says about the walk that starts at its profile. */
  ghost predicate Tells(files: Files, w: seq<string>, r: Result<(Mapping, seq<string>), ProfileError>) {
    && IsLineage(files, w)
    && match r
       case Ok((v, chain)) =>
         && Distinct(w) && Loads(files, Last(w)) && !HasParent(files[Last(w)])
       case Err(Cycle(walk)) => w == walk && Distinct(Init(w)) && Last(w) in Init(w)
       case Err(_) => Distinct(w) && !Loads(files, Last(w))
  }

  lemma ChainGrows(files: Files, chain: seq<string>, id: string, seen: seq<string>)
    requires chain != [] && id in files && forall x :: x in chain ==> x in files
    ensures seen + [id] + Reverse(chain) == seen + Reverse(chain + [id])
    ensures MergedBodies(files, chain + [id]) == Merge(MergedBodies(files, chain), Dict(files[id].body))
  {
    ReverseSnoc(chain, id);
    assert Init(chain + [id]) == chain;
  }

  /** A walk goes on to the parent of its last profile. */
  lemma LineageGrows(files: Files, w: seq<string>)
    requires IsLineage(files, w) && Loads(files, Last(w)) && HasParent(files[Last(w)])
    ensures IsLineage(files, w + [files[Last(w)].parent.value])
  {
    var next := w + [files[Last(w)].parent.value];
    assert forall i :: 0 <= i < |w| - 1 ==> Extends(files, next, i) == Extends(files, w, i);
    assert Extends(files, next, |w| - 1);
  }

  /** The whole walk of a resolution: the ids already seen, and those the recursion goes on to. */
  lemma {:induction false} ResolveWalks(files: Files, id: string, seen: seq<string>) returns (w: seq<string>)
    requires IsLineage(files, seen + [id]) && Distinct(seen)
    ensures Tells(files, w, Resolve(files, id, seen)) && seen + [id] <= w
    ensures Resolve(files, id, seen).Ok? ==>
              var (v, chain) := Resolve(files, id, seen).value;
              w == seen + Reverse(chain) && (forall x :: x in chain ==> x in files) && chain != []
              && v == MergedBodies(files, chain)
    decreases files.Keys - Elements(seen)
  {
    w := seen + [id];
    assert Init(w) == seen;
    if id !in seen && Loads(files, id) && HasParent(files[id]) {
      var parent := files[id].parent.value;
      LineageGrows(files, w);
      ElementsAppend(seen, [id]);
      assert id in files.Keys - Elements(seen);
      w := ResolveWalks(files, parent, seen + [id]);
      if Resolve(files, parent, seen + [id]).Ok? {
        ChainGrows(files, Resolve(files, parent, seen + [id]).value.1, id, seen);
      }
    }
  }

  /** Walks along `extends` from one profile never fork. */
  lemma {:induction false} LineageIsUnique(files: Files, a: seq<string>, b: seq<string>, n: nat)
    requires IsLineage(files, a) && IsLineage(files, b) && a[0] == b[0] && n <= |a| && n <= |b|
    ensures a[..n] == b[..n]
  {
    if n > 1 {
      LineageIsUnique(files, a, b, n - 1);
      assert a[..n - 1][n - 2] == b[..n - 1][n - 2];
      assert Extends(files, a, n - 2) && Extends(files, b, n - 2);
      assert a[..n] == a[..n - 1] + [a[n - 1]] && b[..n] == b[..n - 1] + [b[n - 1]];
    }
  }

  /**
    resolve_profile ends on every set of files.  It reports a cycle exactly when following
    `extends` revisits a profile; otherwise, unless some file on the way does not load, it
    returns the duplicate-free chain of ancestors, first to last, and the left fold of
    deep_merge over their bodies.
   */
  lemma ResolveIsCorrect(files: Files, id: string)
    ensures var r := Resolve(files, id, []);
            && ((r.Err? && r.error.Cycle?) <==> exists w :: IsLineage(files, w) && w[0] == id && !Distinct(w))
            && (r.Ok? ==>
                  var (v, chain) := r.value;
                  && chain != [] && Last(chain) == id && Distinct(chain)
                  && IsLineage(files, Reverse(chain)) && Loads(files, chain[0]) && !HasParent(files[chain[0]])
                  && (forall x :: x in chain ==> x in files) && v == MergedBodies(files, chain))
            && (r.Err? && !r.error.Cycle? ==>
                  exists w :: IsLineage(files, w) && w[0] == id && Distinct(w) && !Loads(files, Last(w)))
  {
    var r := Resolve(files, id, []);
    assert [] + [id] == [id];
    var w := ResolveWalks(files, id, []);
    assert w[0] == id;
    if r.Ok? {
      var (v, chain) := r.value;
      assert w == Reverse(chain);
      ReverseDistinct(chain);
    }
    if Distinct(w) {
      assert !Loads(files, Last(w)) || !HasParent(files[Last(w)]);
      forall u | IsLineage(files, u) && u[0] == id
        ensures Distinct(u)
      {
        NoLongerWalk(files, u, w);
      }
    }
  }

  /** A walk that cannot be continued contains every walk from its profile. */
  lemma NoLongerWalk(files: Files, u: seq<string>, w: seq<string>)
    requires IsLineage(files, u) && IsLineage(files, w) && u[0] == w[0]
    requires !Loads(files, Last(w)) || !HasParent(files[Last(w)])
    ensures u <= w
  {
    if |u| <= |w| {
      LineageIsUnique(files, u, w, |u|);
      assert u[..|u|] == u;
    } else {
      assert Extends(files, u, |w| - 1);
      LineageIsUnique(files, u, w, |w|);
      assert false;
    }
  }

  /**
    The overrides of a manifest are merged as if they were the body of one more profile that
    extends the chosen one.
   */
  lemma OverridesAreOneMoreDescendant(files: Files, id: string, child: string, overrides: map<string, Value>)
    requires child !in files && id != "" && Resolve(files, id, []).Ok?
    ensures var (v, chain) := Resolve(files, id, []).value;
            var files' := files[child := ProfileFile(child, Some(id), overrides, true)];
            Resolve(files', child, []) == Ok((Merge(v, Dict(overrides)), chain + [child]))
  {
    var f := ProfileFile(child, Some(id), overrides, true);
    assert [] + [child] == [child] + [];
    UnrelatedFile(files, child, f, id, []);
  }

  lemma {:induction false} UnrelatedFile(files: Files, child: string, f: ProfileFile, id: string, seen: seq<string>)
    requires child !in files && Resolve(files, id, seen).Ok?
    ensures Resolve(files[child := f], id, [child] + seen) == Resolve(files, id, seen)
    decreases files.Keys - Elements(seen)
  {
    if HasParent(files[id]) {
      ElementsAppend(seen, [id]);
      assert id in files.Keys - Elements(seen);
      assert [child] + seen + [id] == [child] + (seen + [id]);
      UnrelatedFile(files, child, f, files[id].parent.value, seen + [id]);
    }
  }
}
