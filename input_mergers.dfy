/**
 * The two input mergers a WorkSpec can name. A merger turns the list of payloads a dependent
 * work receives (its own input followed by its prerequisites' outputs) into one input.
 */
module InputMergers {
  import opened WorkModel

  /** The default merger: later payloads overwrite earlier ones key by key. */
  function OverwritingMerge(inputs: seq<Data>): Data
    decreases |inputs|
  {
    if inputs == [] then map[] else OverwritingMerge(inputs[..|inputs| - 1]) + inputs[|inputs| - 1]
  }

  /** No payload after position `i` holds key `k`. */
  ghost predicate LastHolder(inputs: seq<Data>, k: string, i: int)
  {
    forall j :: 0 <= j < |inputs| && i < j ==> k !in inputs[j]
  }

  /** The merged payload holds exactly the keys some payload holds. */
  lemma {:induction false} OverwritingMergeKeys(inputs: seq<Data>, k: string)
    ensures k in OverwritingMerge(inputs) <==> exists i :: 0 <= i < |inputs| && k in inputs[i]
    decreases |inputs|
  {
    if inputs != [] {
      var prefix := inputs[..|inputs| - 1];
      OverwritingMergeKeys(prefix, k);
      if k in OverwritingMerge(prefix) {
        var i :| 0 <= i < |prefix| && k in prefix[i];
        assert k in inputs[i];
      }
    }
  }

  /** Each key takes its value from the last payload that holds it. */
  lemma {:induction false} OverwritingMergeLastWins(inputs: seq<Data>, k: string, i: nat)
    requires i < |inputs| && k in inputs[i] && LastHolder(inputs, k, i)
    ensures k in OverwritingMerge(inputs) && OverwritingMerge(inputs)[k] == inputs[i][k]
    decreases |inputs|
  {
    var prefix := inputs[..|inputs| - 1];
    if i < |inputs| - 1 {
      assert k !in inputs[|inputs| - 1];
      assert LastHolder(prefix, k, i) by {
        forall j | 0 <= j < |prefix| && i < j ensures k !in prefix[j] {
          assert prefix[j] == inputs[j];
        }
      }
      OverwritingMergeLastWins(prefix, k, i);
    }
  }

  /** The strings a value contributes to an array: itself, or the array's elements. */
  function Items(v: Value): seq<string>
  {
    match v
    case Str(s) => [s]
    case StrArray(a) => a
  }

  /** One step of ArrayCreatingInputMerger: fold payload `d` into the merged map `acc`. */
  function ArrayMergeStep(acc: Data, d: Data): Data
  {
    map k | k in acc.Keys + d.Keys ::
      if k in d then (if k in acc then StrArray(Items(acc[k]) + Items(d[k])) else d[k])
      else acc[k]
  }

  /** ArrayCreatingInputMerger over the payloads in encounter order. */
  function ArrayCreatingMerge(inputs: seq<Data>): Data
    decreases |inputs|
  {
    if inputs == [] then map[]
    else ArrayMergeStep(ArrayCreatingMerge(inputs[..|inputs| - 1]), inputs[|inputs| - 1])
  }

  /** The values key `k` has across the payloads, in encounter order. */
  function ValuesFor(inputs: seq<Data>, k: string): seq<Value>
    decreases |inputs|
  {
    if inputs == [] then []
    else ValuesFor(inputs[..|inputs| - 1], k) + (if k in inputs[|inputs| - 1] then [inputs[|inputs| - 1][k]] else [])
  }

  lemma ValuesForSnoc(prefix: seq<Data>, d: Data, k: string)
    ensures ValuesFor(prefix + [d], k) == ValuesFor(prefix, k) + (if k in d then [d[k]] else [])
  {
    assert (prefix + [d])[..|prefix|] == prefix;
  }

  /** All strings of a list of values, in order. */
  function Flatten(vs: seq<Value>): seq<string>
    decreases |vs|
  {
    if vs == [] then [] else Flatten(vs[..|vs| - 1]) + Items(vs[|vs| - 1])
  }

  /**
   * The reference meaning of the array-creating policy for one key: a key held by exactly one
   * payload passes through unchanged; a key held by several becomes one array of all their values.
   */
  function MergedValue(vs: seq<Value>): Value
    requires |vs| > 0
  {
    if |vs| == 1 then vs[0] else StrArray(Flatten(vs))
  }

  /** The fold computes the reference meaning, key by key. */
  lemma {:induction false} ArrayCreatingMergeIsPerKey(inputs: seq<Data>, k: string)
    ensures k in ArrayCreatingMerge(inputs) <==> |ValuesFor(inputs, k)| > 0
    ensures k in ArrayCreatingMerge(inputs) ==> ArrayCreatingMerge(inputs)[k] == MergedValue(ValuesFor(inputs, k))
    decreases |inputs|
  {
    if inputs != [] {
      var prefix, d := inputs[..|inputs| - 1], inputs[|inputs| - 1];
      ArrayCreatingMergeIsPerKey(prefix, k);
      var vp := ValuesFor(prefix, k);
      assert ArrayCreatingMerge(inputs) == ArrayMergeStep(ArrayCreatingMerge(prefix), d);
      ValuesForSnoc(prefix, d, k);
      assert inputs == prefix + [d];
      if k in d && |vp| > 0 {
        var vs := vp + [d[k]];
        assert ValuesFor(inputs, k) == vs;
        assert vs[..|vs| - 1] == vp;
        assert Items(MergedValue(vp)) == Flatten(vp) by {
          if |vp| == 1 {
            assert vp[..0] == [];
          }
        }
        assert Flatten(vs) == Flatten(vp) + Items(d[k]);
        assert |vs| >= 2 && MergedValue(vs) == StrArray(Flatten(vs));
        assert k in ArrayCreatingMerge(prefix) && ArrayCreatingMerge(prefix)[k] == MergedValue(vp);
        assert ArrayCreatingMerge(inputs)[k] == StrArray(Items(ArrayCreatingMerge(prefix)[k]) + Items(d[k]));
      } else if k in d {
        assert ValuesFor(inputs, k) == [d[k]];
      } else {
        assert ValuesFor(inputs, k) == vp;
      }
    }
  }

  /** The input the named merger builds. */
  function Merge(kind: MergerKind, inputs: seq<Data>): Data
  {
    match kind
    case OverwritingInputMerger => OverwritingMerge(inputs)
    case ArrayCreatingInputMerger => ArrayCreatingMerge(inputs)
  }

  /**
   * Two prerequisites echoing the same key with different values, merged with the array-creating
   * policy after an empty own input: one key, whose array holds both values.
   */
  lemma ArrayMergeOfTwoEchoes(key: string, value1: string, value2: string)
    ensures var r := Merge(ArrayCreatingInputMerger, [map[], map[key := Str(value1)], map[key := Str(value2)]]);
      && |r| == 1 && key in r && r[key].StrArray?
      && multiset(r[key].items) == multiset{value1, value2}
  {
    var d0: Data, d1: Data, d2: Data := map[], map[key := Str(value1)], map[key := Str(value2)];
    var inputs: seq<Data> := [d0, d1, d2];
    assert inputs == [] + [d0] + [d1] + [d2];
    forall k ensures ValuesFor(inputs, k) == if k == key then [Str(value1), Str(value2)] else [] {
      ValuesForSnoc([], d0, k);
      ValuesForSnoc([d0], d1, k);
      ValuesForSnoc([d0, d1], d2, k);
      assert [d0] + [d1] == [d0, d1];
    }
    forall k ensures k in ArrayCreatingMerge(inputs) <==> k == key {
      ArrayCreatingMergeIsPerKey(inputs, k);
    }
    ArrayCreatingMergeIsPerKey(inputs, key);
    var r := ArrayCreatingMerge(inputs);
    assert r.Keys == {key};
    assert ValuesFor(inputs, key) == [Str(value1), Str(value2)];
    assert Flatten([Str(value1), Str(value2)]) == [value1, value2] by {
      assert [Str(value1), Str(value2)][..1] == [Str(value1)];
      assert [Str(value1)][..0] == [];
      assert Flatten([Str(value1)]) == [value1];
    }
  }
}
