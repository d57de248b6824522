/**
 * The record stores of `database.py`: `BaseHerbDatabase`, a list of herb
 * records with lookups, and `HerbDatabase`, which adds the table view that
 * gives every row the same columns.
 */
module Database {
  import opened Wrappers
  import opened Strings
  import opened HerbRecords
  import HerbParser

  /** Every field name used by some record of `herbs`. */
  function AllKeys(herbs: seq<Herb>): (keys: set<string>)
    ensures forall i :: 0 <= i < |herbs| ==> herbs[i].Keys <= keys
  {
    if herbs == [] then {}
    else AllKeys(herbs[..|herbs| - 1]) + herbs[|herbs| - 1].Keys
  }

  /** Nothing else is in the union: each of its keys is some record's. */
  lemma {:induction false} AllKeysUsed(herbs: seq<Herb>, k: string)
    requires k in AllKeys(herbs)
    ensures exists i :: 0 <= i < |herbs| && k in herbs[i]
  {
    var n := |herbs| - 1;
    if k !in herbs[n] {
      AllKeysUsed(herbs[..n], k);
      var i :| 0 <= i < n && k in herbs[..n][i];
      assert herbs[..n][i] == herbs[i];
    }
  }

  /** When every record has the same fields, those are all the fields. */
  lemma {:induction false} AllKeysOfUniform(herbs: seq<Herb>, keys: set<string>)
    requires |herbs| > 0 && forall i :: 0 <= i < |herbs| ==> herbs[i].Keys == keys
    ensures AllKeys(herbs) == keys
  {
    forall k | k in AllKeys(herbs)
      ensures k in keys
    {
      AllKeysUsed(herbs, k);
    }
    assert herbs[0].Keys <= AllKeys(herbs);
  }

  /** `{key: herb.get(key, "") for key in all_keys}`: the row of one record
      over the given columns. */
  function Padded(herb: Herb, keys: set<string>): (row: Herb)
    ensures row.Keys == keys
  {
    map k | k in keys :: if k in herb then herb[k] else ""
  }

  /** A record whose fields are exactly the columns is its own row. */
  lemma {:induction false} PaddedFull(herb: Herb, keys: set<string>)
    requires herb.Keys == keys
    ensures Padded(herb, keys) == herb
  {
    var row := Padded(herb, keys);
    assert forall k :: k in row ==> row[k] == herb[k];
  }

  /** The rows of the table view, one per record in stored order: every
      row has the same columns, the union of all records' fields; a row
      keeps its record's own values and holds "" in the fields the record
      lacks. */
  function Normalized(herbs: seq<Herb>): (rows: seq<Herb>)
    ensures |rows| == |herbs|
    ensures forall i :: 0 <= i < |rows| ==> rows[i].Keys == AllKeys(herbs)
    ensures forall i, k :: 0 <= i < |rows| && k in herbs[i] ==> k in rows[i] && rows[i][k] == herbs[i][k]
    ensures forall i, k :: 0 <= i < |rows| && k in rows[i] && k !in herbs[i] ==> rows[i][k] == ""
  {
    seq(|herbs|, i requires 0 <= i < |herbs| => Padded(herbs[i], AllKeys(herbs)))
  }

  /** A store whose records already share their fields is its own table. */
  lemma {:induction false} NormalizedUniform(herbs: seq<Herb>)
    requires forall i :: 0 <= i < |herbs| ==> herbs[i].Keys == herbs[0].Keys
    ensures Normalized(herbs) == herbs
  {
    if herbs != [] {
      AllKeysOfUniform(herbs, herbs[0].Keys);
      forall i | 0 <= i < |herbs|
        ensures Normalized(herbs)[i] == herbs[i]
      {
        PaddedFull(herbs[i], herbs[0].Keys);
        assert Normalized(herbs)[i] == Padded(herbs[i], herbs[0].Keys);
      }
    }
  }

  /** `from_txt_file` stores the records `extract_herb_info` returns; they
      all carry the same ten fields, so the table view leaves them as they
      are. */
  lemma {:induction false} CatalogNeedsNoPadding(text: string, matches: seq<HerbParser.AnchorMatch>,
                                                 extract: HerbParser.Extractor)
    requires HerbParser.WellFormedMatches(text, matches)
    ensures Normalized(HerbParser.Catalog(text, matches, extract)) == HerbParser.Catalog(text, matches, extract)
  {
    var catalog := HerbParser.Catalog(text, matches, extract);
    forall j | 0 <= j < |catalog|
      ensures catalog[j].Keys == HerbParser.RecordKeys
    {
      HerbParser.CatalogRecordShape(text, matches, j, extract);
    }
    NormalizedUniform(catalog);
  }

  /** A list of herb records with lookups by name, property and efficacy. */
  class BaseHerbDatabase {
    /** `self.herbs`, in insertion order. */
    var herbs: seq<Herb>

    /** `BaseHerbDatabase(herbs)`: the given records; no records when the
        argument is omitted or empty (`herbs or []`). */
    constructor (initial: Option<seq<Herb>>)
      ensures herbs == if initial.Some? then initial.value else []
    {
      herbs := if initial.Some? then initial.value else [];
    }

    /** `add_herb`: appends one record; the count grows by one, and a name
        lookup that succeeded before now also returns the new record. */
    method AddHerb(herb: Herb)
      modifies this
      ensures herbs == old(herbs) + [herb]
      ensures GetHerbCount() == old(GetHerbCount()) + 1
      ensures "name" in herb && old(GetHerbsByName(herb["name"])).Success? ==>
                GetHerbsByName(herb["name"]) == Success(old(GetHerbsByName(herb["name"])).value + [herb])
    {
      if "name" in herb && Select(herbs, "name", NameIs(herb["name"])).Success? {
        SelectSnoc(herbs, herb, "name", NameIs(herb["name"]));
      }
      herbs := herbs + [herb];
    }

    /** `get_herbs_by_name`: the stored records whose name is `name`, in
        stored order; `KeyError` when some record has no name. */
    function GetHerbsByName(name: string): (r: Result<seq<Herb>, LookupError>)
      reads this
      ensures r.Failure? <==> exists i :: 0 <= i < |herbs| && "name" !in herbs[i]
      ensures r.Success? ==> forall h :: h in r.value ==> h in herbs && h["name"] == name
      ensures r.Success? ==> forall i :: 0 <= i < |herbs| && herbs[i]["name"] == name ==> herbs[i] in r.value
      ensures r.Success? ==> exists idx :: PicksExactly(r.value, herbs, idx, "name", NameIs(name))
    {
      SelectInOrder(herbs, "name", NameIs(name));
      Select(herbs, "name", NameIs(name))
    }

    /** `get_herbs_by_property`: the stored records whose properties text
        contains `propertyValue`; `KeyError` when some record has none. */
    function GetHerbsByProperty(propertyValue: string): (r: Result<seq<Herb>, LookupError>)
      reads this
      ensures r.Failure? <==> exists i :: 0 <= i < |herbs| && "properties" !in herbs[i]
      ensures r.Success? ==> forall h :: h in r.value ==> h in herbs && IsSubstring(propertyValue, h["properties"])
      ensures r.Success? ==> forall i :: 0 <= i < |herbs| && IsSubstring(propertyValue, herbs[i]["properties"]) ==>
                                herbs[i] in r.value
      ensures r.Success? ==> exists idx :: PicksExactly(r.value, herbs, idx, "properties", Mentions(propertyValue))
    {
      SelectInOrder(herbs, "properties", Mentions(propertyValue));
      Select(herbs, "properties", Mentions(propertyValue))
    }

    /** `get_herbs_by_efficacy`: the stored records whose efficacy text
        contains `efficacy`; `KeyError` when some record has none. */
    function GetHerbsByEfficacy(efficacy: string): (r: Result<seq<Herb>, LookupError>)
      reads this
      ensures r.Failure? <==> exists i :: 0 <= i < |herbs| && "efficacy" !in herbs[i]
      ensures r.Success? ==> forall h :: h in r.value ==> h in herbs && IsSubstring(efficacy, h["efficacy"])
      ensures r.Success? ==> forall i :: 0 <= i < |herbs| && IsSubstring(efficacy, herbs[i]["efficacy"]) ==>
                                herbs[i] in r.value
      ensures r.Success? ==> exists idx :: PicksExactly(r.value, herbs, idx, "efficacy", Mentions(efficacy))
    {
      SelectInOrder(herbs, "efficacy", Mentions(efficacy));
      Select(herbs, "efficacy", Mentions(efficacy))
    }

    /** `get_all_herbs`: every stored record, in stored order. */
    function GetAllHerbs(): (r: seq<Herb>)
      reads this
      ensures r == herbs
    {
      herbs
    }

    /** `get_herb_count`: the number of records `get_all_herbs` returns. */
    function GetHerbCount(): (n: nat)
      reads this
      ensures n == |GetAllHerbs()|
    {
      |herbs|
    }
  }

  /** The store of `database.py` that adds the table view. */
  class HerbDatabase {
    /** `self.herbs`, as set up by `BaseHerbDatabase.__init__`. */
    var herbs: seq<Herb>

    /** `HerbDatabase(herbs)`: the given records; no records when the
        argument is omitted or empty. */
    constructor (initial: Option<seq<Herb>>)
      ensures herbs == if initial.Some? then initial.value else []
    {
      herbs := if initial.Some? then initial.value else [];
    }

    /** The rows `to_dataframe` hands to the table, one per record in
        stored order; an empty store gives no rows. */
    method ToDataFrame() returns (rows: seq<Herb>)
      ensures rows == Normalized(herbs)
    {
      if |herbs| == 0 {
        return [];
      }

      var allKeys: set<string> := {};
      for i := 0 to |herbs|
        invariant allKeys == AllKeys(herbs[..i])
      {
        assert herbs[..i + 1][..i] == herbs[..i];
        allKeys := allKeys + herbs[i].Keys;
      }
      assert herbs[..|herbs|] == herbs;

      rows := [];
      for i := 0 to |herbs|
        invariant |rows| == i
        invariant forall j :: 0 <= j < i ==> rows[j] == Padded(herbs[j], allKeys)
      {
        rows := rows + [Padded(herbs[i], allKeys)];
      }
    }
  }
}
