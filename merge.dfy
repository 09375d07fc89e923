/** The merge engine of `NamedValidations` (lib/named_validations.rb:84, 105-123).

    Every operation builds a new mapping from the receiver and its
    arguments; Dafny maps are values, so "the receiver is left unchanged"
    holds by construction and the contracts below speak only of the result.
 */
module Merge {
  import opened Values

  /** Ruby's `Hash#merge(other)`: the keys of both, `other`'s value wherever
      it has the key. The source's three merges (`hash.merge(key => value)`,
      `merge(validation => new_params)`, `merge(default_opts)`) are all this. */
  function HashMerge(h: map<Key, Value>, other: map<Key, Value>): map<Key, Value>
  {
    h + other
  }

  /** The test `params.is_a?(Hash) && cur_params.is_a?(Hash)`; an absent
      name reads as `nil`, which is not a Hash. */
  predicate BothHashes(m: Mapping, v: Name, p: Value)
  {
    p.Dict? && v in m && m[v].Dict?
  }

  /** `deep_merge_internal(validation, params)`: `params` replaces the current
      value unless both are hashes, in which case the keys of `params` are
      laid over the current hash one level deep; only `v` changes. */
  function DeepMergeInternal(m: Mapping, v: Name, p: Value): (r: Mapping)
    ensures r.Keys == m.Keys + {v}
    ensures forall n :: n in m && n != v ==> r[n] == m[n]
    ensures !BothHashes(m, v, p) ==> r[v] == p
    ensures BothHashes(m, v, p) ==>
      && r[v].Dict?
      && r[v].entries.Keys == m[v].entries.Keys + p.entries.Keys
      && (forall k :: k in p.entries ==> r[v].entries[k] == p.entries[k])
      && (forall k :: k in m[v].entries && k !in p.entries ==> r[v].entries[k] == m[v].entries[k])
  {
    var newParams := if BothHashes(m, v, p) then Dict(HashMerge(m[v].entries, p.entries)) else p;
    HashMerge(m, map[v := newParams])
  }

  /** `deep_merge(validation, params, *opts)`: one `deep_merge_internal`
      step, then each option folded in by `deep_merge` on the same name. */
  function DeepMerge(m: Mapping, v: Name, p: Value, opts: seq<Value>): (r: Mapping)
    ensures r.Keys == m.Keys + {v}
    ensures forall n :: n in m && n != v ==> r[n] == m[n]
    decreases |opts|, 1
  {
    MergeOptions(DeepMergeInternal(m, v, p), v, opts)
  }

  /** `opts.inject(new_obj) { |obj, opt| obj.deep_merge(validation, opt) }` */
  function MergeOptions(obj: Mapping, v: Name, opts: seq<Value>): (r: Mapping)
    requires v in obj
    ensures r.Keys == obj.Keys
    ensures forall n :: n in obj && n != v ==> r[n] == obj[n]
    decreases |opts|, 0
  {
    if opts == [] then obj else MergeOptions(DeepMerge(obj, v, opts[0], []), v, opts[1..])
  }

  /** `defaults(default_opts)`, i.e. `merge(default_opts)`: every key of the
      argument takes the argument's value, present or not. */
  function Defaults(m: Mapping, d: Mapping): (r: Mapping)
    ensures r.Keys == m.Keys + d.Keys
    ensures forall n :: n in d ==> r[n] == d[n]
    ensures forall n :: n in m && n !in d ==> r[n] == m[n]
  {
    HashMerge(m, d)
  }

  // ---------------------------------------------------------------------
  // The nested merge as the source writes it: an `inject` over the entries
  // of `params`, one single-key `merge` per entry.

  /** `entries.inject(h) { |hash, (key, value)| hash.merge(key => value) }` */
  ghost function InjectMerge(h: map<Key, Value>, entries: seq<(Key, Value)>): map<Key, Value>
    decreases |entries|
  {
    if entries == [] then h
    else InjectMerge(HashMerge(h, map[entries[0].0 := entries[0].1]), entries[1..])
  }

  /** `entries` is some enumeration of the pairs of `p` (as `Hash#each` yields them). */
  ghost predicate Enumerates(entries: seq<(Key, Value)>, p: map<Key, Value>)
  {
    && (forall i :: 0 <= i < |entries| ==> entries[i].0 in p && p[entries[i].0] == entries[i].1)
    && (forall k :: k in p ==> exists i :: 0 <= i < |entries| && entries[i].0 == k)
  }

  ghost function EntryKeys(entries: seq<(Key, Value)>): set<Key>
  {
    set i | 0 <= i < |entries| :: entries[i].0
  }

  lemma {:induction false} InjectMergePartial(h: map<Key, Value>, entries: seq<(Key, Value)>, p: map<Key, Value>)
    requires forall i :: 0 <= i < |entries| ==> entries[i].0 in p && p[entries[i].0] == entries[i].1
    ensures InjectMerge(h, entries).Keys == h.Keys + EntryKeys(entries)
    ensures forall k :: k in EntryKeys(entries) ==> InjectMerge(h, entries)[k] == p[k]
    ensures forall k :: k in h && k !in EntryKeys(entries) ==> InjectMerge(h, entries)[k] == h[k]
    decreases |entries|
  {
    if entries != [] {
      var h' := HashMerge(h, map[entries[0].0 := entries[0].1]);
      var rest := entries[1..];
      InjectMergePartial(h', rest, p);
      assert EntryKeys(entries) == {entries[0].0} + EntryKeys(rest) by {
        forall k | k in EntryKeys(entries) ensures k in {entries[0].0} + EntryKeys(rest) {
          var i :| 0 <= i < |entries| && entries[i].0 == k;
          if i > 0 { assert rest[i - 1].0 == k; }
        }
        forall k | k in EntryKeys(rest) ensures k in EntryKeys(entries) {
          var i :| 0 <= i < |rest| && rest[i].0 == k;
          assert entries[i + 1].0 == k;
        }
        assert entries[0].0 in EntryKeys(entries);
      }
    }
  }

  /** The fold over the entries of `params` is exactly `Hash#merge(params)`,
      whatever order the entries come in. */
  lemma InjectMergeIsHashMerge(h: map<Key, Value>, entries: seq<(Key, Value)>, p: map<Key, Value>)
    requires Enumerates(entries, p)
    ensures InjectMerge(h, entries) == HashMerge(h, p)
  {
    InjectMergePartial(h, entries, p);
    assert EntryKeys(entries) == p.Keys by {
      forall k | k in p ensures k in EntryKeys(entries) {
        var i :| 0 <= i < |entries| && entries[i].0 == k;
      }
    }
  }

  // ---------------------------------------------------------------------
  // Properties of deep_merge.

  /** With no options `deep_merge` is a single `deep_merge_internal` step. */
  lemma DeepMergeWithoutOptions(m: Mapping, v: Name, p: Value)
    ensures DeepMerge(m, v, p, []) == DeepMergeInternal(m, v, p)
  {
  }

  lemma {:induction false} MergeOptionsSnoc(obj: Mapping, v: Name, opts: seq<Value>, o: Value)
    requires v in obj
    ensures MergeOptions(obj, v, opts + [o]) == DeepMergeInternal(MergeOptions(obj, v, opts), v, o)
    decreases |opts|
  {
    if opts == [] {
      assert [o][1..] == [];
    } else {
      assert (opts + [o])[1..] == opts[1..] + [o];
      MergeOptionsSnoc(DeepMerge(obj, v, opts[0], []), v, opts[1..], o);
    }
  }

  /** The options fold left to right: the last option is merged last, into
      the result of everything before it. */
  lemma DeepMergeFoldsLeft(m: Mapping, v: Name, p: Value, opts: seq<Value>, o: Value)
    ensures DeepMerge(m, v, p, opts + [o]) == DeepMergeInternal(DeepMerge(m, v, p, opts), v, o)
  {
    MergeOptionsSnoc(DeepMergeInternal(m, v, p), v, opts, o);
  }

  /** A trailing non-Hash option replaces whatever came before it. */
  lemma TrailingScalarReplaces(m: Mapping, v: Name, p: Value, opts: seq<Value>, a: Atom)
    ensures DeepMerge(m, v, p, opts + [Scalar(a)])[v] == Scalar(a)
  {
    DeepMergeFoldsLeft(m, v, p, opts, Scalar(a));
  }

  /** A trailing Hash option is laid over a Hash built by what came before it. */
  lemma TrailingHashOverlays(m: Mapping, v: Name, p: Value, opts: seq<Value>, o: map<Key, Value>)
    requires DeepMerge(m, v, p, opts)[v].Dict?
    ensures DeepMerge(m, v, p, opts + [Dict(o)])[v] == Dict(HashMerge(DeepMerge(m, v, p, opts)[v].entries, o))
  {
    DeepMergeFoldsLeft(m, v, p, opts, Dict(o));
  }

  /** What `deep_merge` leaves under `v` depends on the receiver only through
      its current value under `v`. */
  lemma {:induction false} DeepMergeIsLocal(m1: Mapping, m2: Mapping, v: Name, p: Value, opts: seq<Value>)
    requires (v in m1 <==> v in m2) && (v in m1 ==> m1[v] == m2[v])
    ensures DeepMerge(m1, v, p, opts)[v] == DeepMerge(m2, v, p, opts)[v]
    decreases |opts|
  {
    if opts != [] {
      var init := opts[..|opts| - 1];
      assert opts == init + [opts[|opts| - 1]];
      DeepMergeIsLocal(m1, m2, v, p, init);
      DeepMergeFoldsLeft(m1, v, p, init, opts[|opts| - 1]);
      DeepMergeFoldsLeft(m2, v, p, init, opts[|opts| - 1]);
    }
  }

  /** The nested Hash overlay does not recurse: a nested Hash under a key of
      `params` replaces the one under the same key, it is not merged into it. */
  lemma NestedHashesAreReplaced(m: Mapping, v: Name, p: map<Key, Value>, k: Key)
    requires v in m && m[v].Dict? && k in m[v].entries && k in p
    requires m[v].entries[k].Dict? && p[k].Dict?
    ensures DeepMergeInternal(m, v, Dict(p))[v].entries[k] == p[k]
  {
  }

  /** `nesting` on an empty mapping (test/named_validations_test.rb:58):
      `{if: false}` then the option `{if: true, allow_blank: true}`. */
  lemma NestingExample()
    ensures DeepMerge(map[], "acceptance", Dict(map["if" := Scalar(Bool(false))]),
                      [Dict(map["if" := Scalar(Bool(true)), "allow_blank" := Scalar(Bool(true))])])
         == map["acceptance" := Dict(map["if" := Scalar(Bool(true)), "allow_blank" := Scalar(Bool(true))])]
  {
    var nest := map["if" := Scalar(Bool(true)), "allow_blank" := Scalar(Bool(true))];
    DeepMergeFoldsLeft(map[], "acceptance", Dict(map["if" := Scalar(Bool(false))]), [], Dict(nest));
    assert HashMerge(map["if" := Scalar(Bool(false))], nest) == nest;
  }

  /** `other_opts1.other_opts2.other_opts1` (test/named_validations_test.rb:183-188):
      each step overwrites `if` and keeps `unless`. */
  lemma OverlayChainExample()
    ensures var m1 := DeepMerge(map[], "acceptance", Dict(map["if" := Scalar(Bool(false))]), []);
            var m2 := DeepMerge(m1, "acceptance", Dict(map["if" := Scalar(Bool(true)), "unless" := Scalar(Bool(true))]), []);
            var m3 := DeepMerge(m2, "acceptance", Dict(map["if" := Scalar(Bool(false))]), []);
            && m2 == map["acceptance" := Dict(map["if" := Scalar(Bool(true)), "unless" := Scalar(Bool(true))])]
            && m3 == map["acceptance" := Dict(map["if" := Scalar(Bool(false)), "unless" := Scalar(Bool(true))])]
  {
    var o1 := map["if" := Scalar(Bool(false))];
    var o2 := map["if" := Scalar(Bool(true)), "unless" := Scalar(Bool(true))];
    assert HashMerge(o1, o2) == o2;
    assert HashMerge(o2, o1) == map["if" := Scalar(Bool(false)), "unless" := Scalar(Bool(true))];
  }

  // ---------------------------------------------------------------------
  // Properties of defaults.

  /** Unlike `deep_merge`, `defaults` replaces a nested Hash wholesale
      (test/named_validations_test.rb:91-92). */
  lemma DefaultsReplacesNestedHash(m: Mapping, d: Mapping, v: Name)
    requires v in m && v in d && m[v].Dict? && d[v].Dict?
    ensures Defaults(m, d)[v] == d[v]
    ensures DeepMergeInternal(m, v, d[v])[v] == Dict(HashMerge(m[v].entries, d[v].entries))
  {
  }

  /** Applying the same defaults twice is the same as applying them once. */
  lemma DefaultsIdempotent(m: Mapping, d: Mapping)
    ensures Defaults(Defaults(m, d), d) == Defaults(m, d)
  {
  }
}
