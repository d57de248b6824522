/**
 * Herb records as the Python code holds them (`Dict[str, str]`) and the list
 * comprehension behind every `get_herbs_by_*` query of the two record stores.
 */
module HerbRecords {
  import opened Wrappers
  import opened Strings

  /** One herb record: a dictionary from field name to text. */
  type Herb = map<string, string>

  /** What `herb[key]` raises when the record has no such key. */
  datatype LookupError = KeyError(key: string)

  /** `[herb for herb in herbs if test(herb[key])]`, with the `KeyError`
      the subscript raises when some record lacks `key`. */
  function Select(herbs: seq<Herb>, key: string, test: string -> bool): (r: Result<seq<Herb>, LookupError>)
    ensures r.Failure? <==> exists i :: 0 <= i < |herbs| && key !in herbs[i]
    ensures r.Failure? ==> r.error == KeyError(key)
    ensures r.Success? ==> |r.value| <= |herbs|
    ensures r.Success? ==> forall h :: h in r.value ==> h in herbs && key in h && test(h[key])
    ensures r.Success? ==> forall i :: 0 <= i < |herbs| && test(herbs[i][key]) ==> herbs[i] in r.value
  {
    if herbs == [] then Success([])
    else
      var last := herbs[|herbs| - 1];
      match Select(herbs[..|herbs| - 1], key, test)
      case Failure(e) => Failure(e)
      case Success(kept) =>
        if key !in last then Failure(KeyError(key))
        else if test(last[key]) then Success(kept + [last])
        else Success(kept)
  }

  /** Appending one record that has `key` to a store the comprehension
      accepts extends its result by that record exactly when it passes. */
  lemma {:induction false} SelectSnoc(herbs: seq<Herb>, h: Herb, key: string, test: string -> bool)
    requires Select(herbs, key, test).Success? && key in h
    ensures Select(herbs + [h], key, test).Success?
    ensures Select(herbs + [h], key, test).value
            == if test(h[key]) then Select(herbs, key, test).value + [h] else Select(herbs, key, test).value
  {
    assert (herbs + [h])[..|herbs|] == herbs;
    assert (herbs + [h])[|herbs|] == h;
  }

  /** `idx` lists, in increasing order, the positions in `herbs` of the
      elements of `kept`, and exactly the positions whose `key` passes `test`. */
  ghost predicate PicksExactly(kept: seq<Herb>, herbs: seq<Herb>, idx: seq<nat>, key: string, test: string -> bool)
  {
    && |idx| == |kept|
    && (forall j :: 0 <= j < |idx| ==> idx[j] < |herbs| && kept[j] == herbs[idx[j]])
    && (forall j, k :: 0 <= j < k < |idx| ==> idx[j] < idx[k])
    && (forall i :: 0 <= i < |herbs| ==> (i in idx <==> key in herbs[i] && test(herbs[i][key])))
  }

  /** When every record has `key`, the comprehension succeeds and keeps
      exactly the records whose `key` passes `test`, in stored order. */
  lemma {:induction false} SelectPicksExactly(herbs: seq<Herb>, key: string, test: string -> bool)
    requires forall i :: 0 <= i < |herbs| ==> key in herbs[i]
    ensures Select(herbs, key, test).Success?
    ensures exists idx :: PicksExactly(Select(herbs, key, test).value, herbs, idx, key, test)
  {
    if herbs == [] {
      assert PicksExactly([], herbs, [], key, test);
    } else {
      var n := |herbs| - 1;
      var init := herbs[..n];
      SelectPicksExactly(init, key, test);
      var kept := Select(init, key, test).value;
      var idx :| PicksExactly(kept, init, idx, key, test);
      var h := herbs[n];
      assert init + [h] == herbs;
      PicksExtend(kept, init, idx, h, key, test);
      if test(h[key]) {
        assert Select(herbs, key, test).value == kept + [h];
        assert PicksExactly(Select(herbs, key, test).value, herbs, idx + [n], key, test);
      } else {
        assert Select(herbs, key, test).value == kept;
        assert PicksExactly(Select(herbs, key, test).value, herbs, idx, key, test);
      }
    }
  }

  /** Whenever the comprehension succeeds, it keeps exactly the passing
      records, in stored order and with their multiplicity. */
  lemma {:induction false} SelectInOrder(herbs: seq<Herb>, key: string, test: string -> bool)
    ensures Select(herbs, key, test).Success? ==>
              exists idx :: PicksExactly(Select(herbs, key, test).value, herbs, idx, key, test)
  {
    if Select(herbs, key, test).Success? {
      SelectPicksExactly(herbs, key, test);
    }
  }

  /** One more record extends a selection by itself exactly when it passes. */
  lemma {:induction false} PicksExtend(kept: seq<Herb>, init: seq<Herb>, idx: seq<nat>, h: Herb, key: string, test: string -> bool)
    requires PicksExactly(kept, init, idx, key, test) && key in h
    ensures test(h[key]) ==> PicksExactly(kept + [h], init + [h], idx + [|init|], key, test)
    ensures !test(h[key]) ==> PicksExactly(kept, init + [h], idx, key, test)
  {
    var n := |init|;
    assert n !in idx;
    if test(h[key]) {
      PicksAppend(kept, init, idx, h, key, test);
    } else {
      PicksSkip(kept, init, idx, h, key, test);
    }
  }

  lemma {:induction false} PicksAppend(kept: seq<Herb>, init: seq<Herb>, idx: seq<nat>, h: Herb, key: string, test: string -> bool)
    requires PicksExactly(kept, init, idx, key, test) && key in h && test(h[key]) && |init| !in idx
    ensures PicksExactly(kept + [h], init + [h], idx + [|init|], key, test)
  {
    var n, herbs, kept', idx' := |init|, init + [h], kept + [h], idx + [|init|];
    forall j | 0 <= j < |idx'|
      ensures idx'[j] < |herbs| && kept'[j] == herbs[idx'[j]]
    {
      if j < |idx| {
        assert kept'[j] == kept[j] == init[idx[j]];
      }
    }
    forall j, k | 0 <= j < k < |idx'|
      ensures idx'[j] < idx'[k]
    {
      if k < |idx| {
        assert idx'[j] == idx[j] && idx'[k] == idx[k];
      }
    }
    forall i | 0 <= i < |herbs|
      ensures i in idx' <==> key in herbs[i] && test(herbs[i][key])
    {
      if i < n {
        assert herbs[i] == init[i];
      }
    }
  }

  lemma {:induction false} PicksSkip(kept: seq<Herb>, init: seq<Herb>, idx: seq<nat>, h: Herb, key: string, test: string -> bool)
    requires PicksExactly(kept, init, idx, key, test) && key in h && !test(h[key]) && |init| !in idx
    ensures PicksExactly(kept, init + [h], idx, key, test)
  {
    var n, herbs := |init|, init + [h];
    forall j | 0 <= j < |idx|
      ensures idx[j] < |herbs| && kept[j] == herbs[idx[j]]
    {
      assert kept[j] == init[idx[j]];
    }
    forall i | 0 <= i < |herbs|
      ensures i in idx <==> key in herbs[i] && test(herbs[i][key])
    {
      if i < n {
        assert herbs[i] == init[i];
      }
    }
  }

  /** `get_herbs_by_name`: records whose `'name'` equals the query. */
  function NameIs(name: string): string -> bool
  {
    v => v == name
  }

  /** `get_herbs_by_property` / `get_herbs_by_efficacy`: records whose field
      contains the query as a substring (Python's `query in value`). */
  function Mentions(query: string): string -> bool
  {
    v => Contains(v, query)
  }

  /** The empty query is a substring of every value, so it selects every record. */
  lemma {:induction false} EmptyQuerySelectsAll(herbs: seq<Herb>, key: string)
    requires forall i :: 0 <= i < |herbs| ==> key in herbs[i]
    ensures Select(herbs, key, Mentions("")) == Success(herbs)
  {
    if herbs != [] {
      var n := |herbs| - 1;
      EmptyQuerySelectsAll(herbs[..n], key);
      assert OccursAt(herbs[n][key], "", 0);
      assert herbs[..n] + [herbs[n]] == herbs;
    }
  }
}
