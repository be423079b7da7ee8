/** Merging the configuration file over the built-in defaults. */
module ConfigMerge {
  import opened Collections

  type Key = string

  /** A configuration value: a dictionary or anything else. */
  datatype Value = Leaf(text: string) | Dict(entries: map<Key, Value>)

  /** Some key is a dictionary on the left but not on the right, here or further down: ValueError. */
  ghost predicate Clash(base: Value, over: Value)
    decreases base
  {
    base.Dict? && (over.Leaf? || exists k :: k in base.entries && k in over.entries && Clash(base.entries[k], over.entries[k]))
  }

  /** The merged value of a key that both sides have. */
  ghost function Merge(base: Value, over: Value): Value
    requires !Clash(base, over)
    decreases base
  {
    if base.Leaf? then over
    else
      Dict(map k | k in base.entries.Keys + over.entries.Keys ::
        if k !in over.entries then base.entries[k]
        else if k !in base.entries then over.entries[k]
        else Merge(base.entries[k], over.entries[k]))
  }

  /** The merge of two dictionaries; anything else is refused. */
  method MergeDict(base: Value, over: Value) returns (r: Option<Value>)
    ensures r.Some? <==> base.Dict? && !Clash(base, over)
    ensures r.Some? ==> r.value == Merge(base, over)
    decreases base
  {
    if base.Leaf? || over.Leaf? {
      return None;
    }
    var b, o := base.entries, over.entries;
    var newkeys := o.Keys;
    var merged: map<Key, Value> := map[];
    var todo := b.Keys;
    while todo != {}
      invariant todo <= b.Keys && merged.Keys == b.Keys - todo
      invariant newkeys == o.Keys - set k | k in b.Keys - todo && b[k].Dict?
      invariant forall k :: k in merged && k in o && b[k].Dict? ==> !Clash(b[k], o[k]) && merged[k] == Merge(b[k], o[k])
      invariant forall k :: k in merged && !(k in o && b[k].Dict?) ==> merged[k] == b[k]
    {
      var key :| key in todo;
      todo := todo - {key};
      if key in newkeys && b[key].Dict? {
        newkeys := newkeys - {key};
        var sub := MergeDict(b[key], o[key]);
        if sub.None? {
          return None;
        }
        merged := merged[key := sub.value];
      } else {
        merged := merged[key := b[key]];
      }
    }
    assert forall k :: k in b && k in o ==> !Clash(b[k], o[k]);
    merged := TakeNew(merged, o, newkeys);
    assert merged == Merge(base, over).entries;
    return Some(Dict(merged));
  }

  /** The second loop: what is left of the new side goes in as it is. */
  method TakeNew(merged0: map<Key, Value>, o: map<Key, Value>, keys: set<Key>) returns (merged: map<Key, Value>)
    requires keys <= o.Keys
    ensures merged.Keys == merged0.Keys + keys
    ensures forall k :: k in merged ==> merged[k] == if k in keys then o[k] else merged0[k]
  {
    merged := merged0;
    var todo := keys;
    while todo != {}
      invariant todo <= keys && merged.Keys == merged0.Keys + (keys - todo)
      invariant forall k :: k in merged ==> merged[k] == if k in keys - todo then o[k] else merged0[k]
    {
      var key :| key in todo;
      todo := todo - {key};
      merged := merged[key := o[key]];
    }
  }

  // ---------- what a merge keeps ----------

  /** The value at a path of keys. */
  function Lookup(v: Value, path: seq<Key>): Option<Value> {
    if path == [] then Some(v)
    else if v.Dict? && path[0] in v.entries then Lookup(v.entries[path[0]], path[1..])
    else None
  }

  /**
   * The merged configuration has exactly the paths of the two sides, takes whatever leaf the new side has
   * at a path, and keeps the base where the new side has nothing.
   */
  lemma {:induction false} MergeKeepsPaths(base: Value, over: Value, path: seq<Key>)
    requires !Clash(base, over)
    ensures Lookup(Merge(base, over), path).Some? <==> Lookup(base, path).Some? || Lookup(over, path).Some?
    ensures Lookup(over, path).Some? && Lookup(over, path).value.Leaf? ==> Lookup(Merge(base, over), path) == Lookup(over, path)
    ensures Lookup(over, path).None? ==> Lookup(Merge(base, over), path) == Lookup(base, path)
    decreases path
  {
    if path != [] && base.Dict? && path[0] in base.entries && path[0] in over.entries {
      MergeKeepsPaths(base.entries[path[0]], over.entries[path[0]], path[1..]);
    }
  }

  /** A dictionary on the old side that the new side has a plain value for, under the same path. */
  ghost predicate Replaces(base: Value, over: Value, path: seq<Key>) {
    && Lookup(base, path).Some? && Lookup(base, path).value.Dict?
    && Lookup(over, path).Some? && Lookup(over, path).value.Leaf?
  }

  /** Two sides clash exactly if some path leads to a dictionary in the old one and to a plain value in the new one. */
  lemma {:induction false} ClashIff(base: Value, over: Value)
    ensures Clash(base, over) <==> exists path :: Replaces(base, over, path)
    decreases base
  {
    if base.Dict? && over.Leaf? {
      assert Replaces(base, over, []);
    } else if base.Dict? {
      forall k | k in base.entries && k in over.entries
        ensures Clash(base.entries[k], over.entries[k]) <==> exists path :: Replaces(base.entries[k], over.entries[k], path)
      {
        ClashIff(base.entries[k], over.entries[k]);
      }
      if Clash(base, over) {
        var k :| k in base.entries && k in over.entries && Clash(base.entries[k], over.entries[k]);
        var path :| Replaces(base.entries[k], over.entries[k], path);
        assert ([k] + path)[1..] == path;
        assert Replaces(base, over, [k] + path);
      }
      if path :| Replaces(base, over, path) {
        assert path != [];
        assert Replaces(base.entries[path[0]], over.entries[path[0]], path[1..]);
      }
    }
  }

  /** Merging three layers left to right can be regrouped: the other grouping succeeds and agrees. */
  lemma {:induction false} MergeAssociative(a: Value, b: Value, c: Value)
    requires !Clash(a, b) && !Clash(Merge(a, b), c)
    ensures !Clash(b, c) && !Clash(a, Merge(b, c))
    ensures Merge(Merge(a, b), c) == Merge(a, Merge(b, c))
    decreases a
  {
    if a.Dict? {
      var ab := Merge(a, b);
      forall k | k in b.entries && k in c.entries ensures !Clash(b.entries[k], c.entries[k]) {
        assert k in ab.entries && !Clash(ab.entries[k], c.entries[k]);
        if k in a.entries {
          MergeAssociative(a.entries[k], b.entries[k], c.entries[k]);
        }
      }
      var bc := Merge(b, c);
      forall k | k in a.entries && k in bc.entries
        ensures !Clash(a.entries[k], bc.entries[k])
        ensures Merge(ab, c).entries[k] == Merge(a.entries[k], bc.entries[k])
      {
        if k in b.entries && k in c.entries {
          assert !Clash(ab.entries[k], c.entries[k]);
          MergeAssociative(a.entries[k], b.entries[k], c.entries[k]);
        } else if k in c.entries {
          assert !Clash(ab.entries[k], c.entries[k]);
        }
      }
      assert Merge(ab, c).entries == Merge(a, bc).entries;
    }
  }

  /** If the right grouping succeeds, the left one does so exactly when its first merge does. */
  lemma {:induction false} RegroupedIff(a: Value, b: Value, c: Value)
    requires !Clash(b, c) && !Clash(a, Merge(b, c))
    ensures !Clash(a, b) && !Clash(Merge(a, b), c) <==> !Clash(a, b)
    ensures !Clash(a, b) ==> Merge(Merge(a, b), c) == Merge(a, Merge(b, c))
    decreases a
  {
    if !Clash(a, b) {
      LeftClear(a, b, c);
      MergeAssociative(a, b, c);
    }
  }

  lemma {:induction false} LeftClear(a: Value, b: Value, c: Value)
    requires !Clash(a, b) && !Clash(b, c) && !Clash(a, Merge(b, c))
    ensures !Clash(Merge(a, b), c)
    decreases a
  {
    if a.Dict? {
      var ab, bc := Merge(a, b), Merge(b, c);
      forall k | k in ab.entries && k in c.entries ensures !Clash(ab.entries[k], c.entries[k]) {
        assert k in bc.entries;
        if k in a.entries {
          assert !Clash(a.entries[k], bc.entries[k]);
          if k in b.entries {
            LeftClear(a.entries[k], b.entries[k], c.entries[k]);
          }
        }
      }
    }
  }

  /** The converse fails: the right grouping may succeed where the left one is refused. */
  lemma RegroupingIsOneWay()
    ensures var a := Dict(map["k" := Dict(map[])]);
      var b := Dict(map["k" := Leaf("x")]);
      var c := Dict(map["k" := Dict(map[])]);
      Clash(a, b) && !Clash(b, c) && !Clash(a, Merge(b, c))
  {
    var a := Dict(map["k" := Dict(map[])]);
    var b := Dict(map["k" := Leaf("x")]);
    var c := Dict(map["k" := Dict(map[])]);
    assert "k" in a.entries && Clash(a.entries["k"], b.entries["k"]);
    assert Merge(b, c).entries["k"] == Dict(map[]);
  }
}
