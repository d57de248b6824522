/**
 * The herb extraction pipeline of `herb_parser.py`: the segmenter that cuts one text into herb records around the anchor
 * matches, the filter that drops appendix entries, and the list-backed
 * `HerbDatabase` store defined in the same file.
 */
module HerbParser {
  import opened Wrappers
  import opened Strings
  import opened HerbRecords
  import opened Sections

  // ---------------------------------------------------------------------
  // Segmentation: `HerbParser.extract_herb_info`.
  // ---------------------------------------------------------------------

  /** One match of the anchor pattern, as `re.finditer` reports it: its span
      and its three raw capture groups (name, pinyin, source title). */
  datatype AnchorMatch = AnchorMatch(start: nat, end: nat, nameGroup: string, pinyinGroup: string, sourceGroup: string)

  /** One entry of `herb_positions`: the span and the cleaned captures. */
  datatype HerbPosition = HerbPosition(start: nat, end: nat, name: string, pinyin: string, source: string)

  /** What `re.finditer` guarantees of its matches for any pattern: spans
      inside the text, in order and not overlapping. A span may be empty;
      the default pattern's spans never are (`DefaultAnchors`). */
  predicate WellFormedMatches(text: string, matches: seq<AnchorMatch>)
  {
    && (forall i :: 0 <= i < |matches| ==> matches[i].start <= matches[i].end <= |text|)
    && (forall i :: 0 < i < |matches| ==> matches[i - 1].end <= matches[i].start)
  }

  /** The entry the first loop builds from one match: name and pinyin
      stripped, the source title stripped and put back inside 《》. */
  function PositionOf(m: AnchorMatch): (p: HerbPosition)
    ensures p.start == m.start && p.end == m.end
    ensures |p.source| >= 2 && p.source[0] == '《' && p.source[|p.source| - 1] == '》'
  {
    HerbPosition(m.start, m.end, Strip(m.nameGroup), Strip(m.pinyinGroup), "《" + Strip(m.sourceGroup) + "》")
  }

  function Positions(matches: seq<AnchorMatch>): seq<HerbPosition>
  {
    seq(|matches|, i requires 0 <= i < |matches| => PositionOf(matches[i]))
  }

  /** Every start offset lies inside the text. */
  predicate StartsInText(text: string, positions: seq<HerbPosition>)
  {
    forall i :: 0 <= i < |positions| ==> positions[i].start <= |text|
  }

  /** Where the body of a record anchored at `start` begins: one past the
      first '\n' at or after `start`, or `start` itself when there is none. */
  function BodyStart(text: string, start: nat): (b: nat)
    requires start <= |text|
    ensures start <= b <= |text|
    ensures b > start ==> text[b - 1] == '\n' && forall k :: start <= k < b - 1 ==> text[k] != '\n'
    ensures b == start ==> forall k :: start <= k < |text| ==> text[k] != '\n'
  {
    var e := IndexOfChar(text, '\n', start);
    if e < |text| then e + 1 else start
  }

  /** Where the body of record `i` ends: the next anchor's start, or the end
      of the text for the last record. */
  function BodyEnd(text: string, positions: seq<HerbPosition>, i: nat): (e: nat)
    requires StartsInText(text, positions) && i < |positions|
    ensures e <= |text|
    ensures i + 1 < |positions| ==> e == positions[i + 1].start
    ensures i + 1 == |positions| ==> e == |text|
  {
    if i < |positions| - 1 then positions[i + 1].start else |text|
  }

  /** The section markers, in the order the record lists them. */
  const PropertiesTitle := "【药性】"
  const EfficacyTitle := "【功效】"
  const ApplicationTitle := "【应用】"
  const DosageTitle := "【用法用量】"
  const PrecautionsTitle := "【使用注意】"
  const ModernResearchTitle := "【现代研究】"

  /** The ten keys of every record the parser builds. */
  const RecordKeys: set<string> := {"name", "pinyin", "source", "properties", "efficacy", "application",
                                    "dosage", "precautions", "modern_research", "full_content"}

  /** A record with the ten fields the parser fills in. */
  function RecordOf(name: string, pinyin: string, source: string, properties: string, efficacy: string,
                    application: string, dosage: string, precautions: string, modernResearch: string,
                    fullContent: string): (h: Herb)
    ensures h.Keys == RecordKeys
  {
    map[
      "name" := name,
      "pinyin" := pinyin,
      "source" := source,
      "properties" := properties,
      "efficacy" := efficacy,
      "application" := application,
      "dosage" := dosage,
      "precautions" := precautions,
      "modern_research" := modernResearch,
      "full_content" := fullContent
    ]
  }

  /** Each field of such a record holds the value given for it. */
  lemma RecordOfFields(name: string, pinyin: string, source: string, properties: string, efficacy: string,
                       application: string, dosage: string, precautions: string, modernResearch: string,
                       fullContent: string)
    ensures var h := RecordOf(name, pinyin, source, properties, efficacy, application, dosage, precautions,
                              modernResearch, fullContent);
      && h["name"] == name && h["pinyin"] == pinyin && h["source"] == source
      && h["properties"] == properties && h["efficacy"] == efficacy && h["application"] == application
      && h["dosage"] == dosage && h["precautions"] == precautions && h["modern_research"] == modernResearch
      && h["full_content"] == fullContent
  {
  }

  /** How a section is read out of a body given its title. The parser calls
      its own `extract_section` through `self`, so the segmentation below is
      stated for any extractor; `ExtractHerbInfo` uses `ExtractSection`. */
  type Extractor = (string, string) -> string

  /** The `parts` dictionary assembled for one entry and its body text. */
  function Record(pos: HerbPosition, content: string, extract: Extractor): (h: Herb)
    ensures h.Keys == RecordKeys
  {
    RecordOf(pos.name, pos.pinyin, pos.source,
             extract(content, PropertiesTitle),
             extract(content, EfficacyTitle),
             extract(content, ApplicationTitle),
             extract(content, DosageTitle),
             extract(content, PrecautionsTitle),
             extract(content, ModernResearchTitle),
             content)
  }

  /** `herb_content` of entry `i`: the text from its body start to its body end. */
  function Body(text: string, positions: seq<HerbPosition>, i: nat): string
    requires StartsInText(text, positions) && i < |positions|
  {
    Slice(text, BodyStart(text, positions[i].start), BodyEnd(text, positions, i))
  }

  /** The candidate record for entry `i`, before filtering. */
  function Candidate(text: string, positions: seq<HerbPosition>, i: nat, extract: Extractor): Herb
    requires StartsInText(text, positions) && i < |positions|
  {
    Record(positions[i], Body(text, positions, i), extract)
  }

  /** The six section fields of a record are the sections of its body. */
  predicate SectionsOfBody(h: Herb, extract: Extractor)
  {
    && h.Keys == RecordKeys
    && h["properties"] == extract(h["full_content"], PropertiesTitle)
    && h["efficacy"] == extract(h["full_content"], EfficacyTitle)
    && h["application"] == extract(h["full_content"], ApplicationTitle)
    && h["dosage"] == extract(h["full_content"], DosageTitle)
    && h["precautions"] == extract(h["full_content"], PrecautionsTitle)
    && h["modern_research"] == extract(h["full_content"], ModernResearchTitle)
  }

  /** A candidate carries its entry's name, pinyin and source, its body as
      `full_content`, and each section as extracted from that body. */
  lemma {:induction false} CandidateFields(text: string, positions: seq<HerbPosition>, i: nat, extract: Extractor)
    requires StartsInText(text, positions) && i < |positions|
    ensures var c := Candidate(text, positions, i, extract);
      && SectionsOfBody(c, extract)
      && c["name"] == positions[i].name && c["pinyin"] == positions[i].pinyin && c["source"] == positions[i].source
      && c["full_content"] == Body(text, positions, i)
  {
    var pos, body := positions[i], Body(text, positions, i);
    RecordOfFields(pos.name, pos.pinyin, pos.source,
                   extract(body, PropertiesTitle), extract(body, EfficacyTitle),
                   extract(body, ApplicationTitle), extract(body, DosageTitle),
                   extract(body, PrecautionsTitle), extract(body, ModernResearchTitle),
                   body);
  }

  /** Appendix and cross-reference entries: names starting with 附药, 附方 or 附录. */
  predicate IsExcluded(name: string)
  {
    StartsWith(name, "附药") || StartsWith(name, "附方") || StartsWith(name, "附录")
  }

  /** The filter test of the second loop: the entry is kept. */
  predicate Retained(name: string)
  {
    !IsExcluded(name)
  }

  /** The entries among the first `n` whose name is not excluded, in order. */
  function KeptIndices(positions: seq<HerbPosition>, n: nat): (idx: seq<nat>)
    requires n <= |positions|
    ensures |idx| <= n
    ensures forall j :: 0 <= j < |idx| ==> idx[j] < n
  {
    if n == 0 then []
    else if Retained(positions[n - 1].name) then KeptIndices(positions, n - 1) + [n - 1]
    else KeptIndices(positions, n - 1)
  }

  /** The number of entries among the first `n` whose name is excluded. */
  function ExcludedCount(positions: seq<HerbPosition>, n: nat): nat
    requires n <= |positions|
  {
    if n == 0 then 0
    else if IsExcluded(positions[n - 1].name) then ExcludedCount(positions, n - 1) + 1
    else ExcludedCount(positions, n - 1)
  }

  /** The kept entries are listed in increasing order, and an entry is
      listed exactly when its name is not excluded. */
  lemma {:induction false} KeptIndicesExact(positions: seq<HerbPosition>, n: nat)
    requires n <= |positions|
    ensures var idx := KeptIndices(positions, n);
      && (forall j, k :: 0 <= j < k < |idx| ==> idx[j] < idx[k])
      && (forall i :: 0 <= i < n ==> (i in idx <==> Retained(positions[i].name)))
  {
    if n > 0 {
      KeptIndicesExact(positions, n - 1);
    }
  }

  /** Every entry is either kept or excluded. */
  lemma {:induction false} KeptIndicesCount(positions: seq<HerbPosition>, n: nat)
    requires n <= |positions|
    ensures |KeptIndices(positions, n)| + ExcludedCount(positions, n) == n
  {
    if n > 0 {
      KeptIndicesCount(positions, n - 1);
    }
  }

  /** With no excluded name every entry is kept, in order. */
  lemma {:induction false} KeptIndicesAll(positions: seq<HerbPosition>, n: nat)
    requires n <= |positions|
    requires forall i :: 0 <= i < n ==> Retained(positions[i].name)
    ensures forall j :: 0 <= j < |KeptIndices(positions, n)| ==> KeptIndices(positions, n)[j] == j
    ensures |KeptIndices(positions, n)| == n
  {
    if n > 0 {
      KeptIndicesAll(positions, n - 1);
    }
  }

  /** The candidates of the entries listed in `idx`, in that order. */
  function CandidatesAt(text: string, positions: seq<HerbPosition>, idx: seq<nat>, extract: Extractor): seq<Herb>
    requires StartsInText(text, positions) && forall j :: 0 <= j < |idx| ==> idx[j] < |positions|
  {
    seq(|idx|, j requires 0 <= j < |idx| => Candidate(text, positions, idx[j], extract))
  }

  /** Listing one more entry appends its candidate. */
  lemma {:induction false} CandidatesAtSnoc(text: string, positions: seq<HerbPosition>, idx: seq<nat>, i: nat, extract: Extractor)
    requires StartsInText(text, positions) && i < |positions| && forall j :: 0 <= j < |idx| ==> idx[j] < |positions|
    ensures CandidatesAt(text, positions, idx + [i], extract)
            == CandidatesAt(text, positions, idx, extract) + [Candidate(text, positions, i, extract)]
  {
  }

  /** The records kept from the first `n` entries. */
  function KeptPrefix(text: string, positions: seq<HerbPosition>, n: nat, extract: Extractor): seq<Herb>
    requires StartsInText(text, positions) && n <= |positions|
  {
    CandidatesAt(text, positions, KeptIndices(positions, n), extract)
  }

  /** One more entry adds its candidate exactly when its name is not excluded. */
  lemma {:induction false} KeptPrefixStep(text: string, positions: seq<HerbPosition>, n: nat, extract: Extractor)
    requires StartsInText(text, positions) && n < |positions|
    ensures KeptPrefix(text, positions, n + 1, extract)
            == if Retained(positions[n].name) then KeptPrefix(text, positions, n, extract) + [Candidate(text, positions, n, extract)]
               else KeptPrefix(text, positions, n, extract)
  {
    if Retained(positions[n].name) {
      CandidatesAtSnoc(text, positions, KeptIndices(positions, n), n, extract);
    }
  }

  /** The records the segmenter returns: the candidates whose name is not
      excluded, in match order. */
  function Catalog(text: string, matches: seq<AnchorMatch>, extract: Extractor): seq<Herb>
    requires WellFormedMatches(text, matches)
  {
    KeptPrefix(text, Positions(matches), |matches|, extract)
  }

  /** The first loop of `extract_herb_info`: one entry per match, in match order. */
  method CollectPositions(matches: seq<AnchorMatch>) returns (positions: seq<HerbPosition>)
    ensures positions == Positions(matches)
  {
    positions := [];
    for i := 0 to |matches|
      invariant |positions| == i
      invariant forall k :: 0 <= k < i ==> positions[k] == PositionOf(matches[k])
    {
      var m := matches[i];
      var name := Strip(m.nameGroup);
      var pinyin := Strip(m.pinyinGroup);
      var source := "《" + Strip(m.sourceGroup) + "》";
      positions := positions + [HerbPosition(m.start, m.end, name, pinyin, source)];
    }
  }

  /** The body of the second loop of `extract_herb_info` for entry `i`:
      the body runs from just past the first '\n' after the anchor's start
      (or from the start itself when there is none) to the next anchor's
      start (or the end of the text); the `parts` dictionary is built from
      it. */
  method EntryRecord(text: string, positions: seq<HerbPosition>, i: nat) returns (parts: Herb)
    requires StartsInText(text, positions) && i < |positions|
    ensures parts == Candidate(text, positions, i, ExtractSection)
    ensures "name" in parts && parts["name"] == positions[i].name
  {
    var pos := positions[i];
    var startPos := pos.start;
    var newlinePos := Find(text, "\n", startPos);
    FindChar(text, '\n', startPos);
    if newlinePos.Some? {
      startPos := newlinePos.value + 1;
    }
    assert startPos == BodyStart(text, pos.start);
    var endPos := if i < |positions| - 1 then positions[i + 1].start else |text|;
    var content := Slice(text, startPos, endPos);
    parts := RecordOf(pos.name, pos.pinyin, pos.source,
                      ExtractSection(content, PropertiesTitle),
                      ExtractSection(content, EfficacyTitle),
                      ExtractSection(content, ApplicationTitle),
                      ExtractSection(content, DosageTitle),
                      ExtractSection(content, PrecautionsTitle),
                      ExtractSection(content, ModernResearchTitle),
                      content);
    CandidateFields(text, positions, i, ExtractSection);
  }

  /** `extract_herb_info(text)` given the matches of the anchor pattern in
      `text`: builds the entries, cuts each body, extracts its sections and
      keeps the entries that are not excluded. */
  method ExtractHerbInfo(text: string, matches: seq<AnchorMatch>) returns (herbs: seq<Herb>)
    requires WellFormedMatches(text, matches)
    ensures herbs == Catalog(text, matches, ExtractSection)
    ensures |matches| == 0 ==> herbs == []
  {
    var positions := CollectPositions(matches);

    herbs := [];
    for i := 0 to |positions|
      invariant herbs == KeptPrefix(text, positions, i, ExtractSection)
    {
      var parts := EntryRecord(text, positions, i);
      KeptPrefixStep(text, positions, i, ExtractSection);
      if !IsExcluded(parts["name"]) {
        herbs := herbs + [parts];
      }
    }
  }

  // ---------------------------------------------------------------------
  // What the catalog holds.
  // ---------------------------------------------------------------------

  /** The catalog lists the candidates of exactly the entries whose name is
      not excluded, in match order: nothing else is dropped and nothing is
      reordered. */
  lemma {:induction false} CatalogKeepsExactly(text: string, matches: seq<AnchorMatch>, extract: Extractor)
    requires WellFormedMatches(text, matches)
    ensures var catalog, idx := Catalog(text, matches, extract), KeptIndices(Positions(matches), |matches|);
      && |catalog| == |idx|
      && (forall j :: 0 <= j < |idx| ==> idx[j] < |matches| && catalog[j] == Candidate(text, Positions(matches), idx[j], extract))
      && (forall j, k :: 0 <= j < k < |idx| ==> idx[j] < idx[k])
      && (forall i :: 0 <= i < |matches| ==> (i in idx <==> Retained(Strip(matches[i].nameGroup))))
  {
    KeptIndicesExact(Positions(matches), |matches|);
  }

  /** Every entry is either kept or dropped: the catalog has as many records
      as there are matches, less the excluded ones. */
  lemma {:induction false} CatalogCount(text: string, matches: seq<AnchorMatch>, extract: Extractor)
    requires WellFormedMatches(text, matches)
    ensures |Catalog(text, matches, extract)| == |matches| - ExcludedCount(Positions(matches), |matches|)
  {
    KeptIndicesCount(Positions(matches), |matches|);
  }

  /** A text with no appendix entries yields one record per match, in match order. */
  lemma {:induction false} CatalogWithoutExclusions(text: string, matches: seq<AnchorMatch>, extract: Extractor)
    requires WellFormedMatches(text, matches)
    requires forall i :: 0 <= i < |matches| ==> Retained(Strip(matches[i].nameGroup))
    ensures |Catalog(text, matches, extract)| == |matches|
    ensures forall i :: 0 <= i < |matches| ==> Catalog(text, matches, extract)[i] == Candidate(text, Positions(matches), i, extract)
  {
    KeptIndicesAll(Positions(matches), |matches|);
  }

  /** The source is the stripped title inside 《》. */
  predicate FramedSource(source: string)
  {
    |source| >= 2 && source[0] == '《' && source[|source| - 1] == '》'
  }

  /** The candidate of a match carries the match's stripped name and
      pinyin, its source title stripped and framed in 《》, the ten keys and
      the sections of its body. */
  lemma {:induction false} CandidateOfMatch(text: string, matches: seq<AnchorMatch>, i: nat, extract: Extractor)
    requires WellFormedMatches(text, matches) && i < |matches|
    ensures var c := Candidate(text, Positions(matches), i, extract);
      && SectionsOfBody(c, extract)
      && c["name"] == Strip(matches[i].nameGroup)
      && c["pinyin"] == Strip(matches[i].pinyinGroup)
      && c["source"] == "《" + Strip(matches[i].sourceGroup) + "》"
      && FramedSource(c["source"])
  {
    var positions := Positions(matches);
    CandidateFields(text, positions, i, extract);
    assert positions[i] == PositionOf(matches[i]);
  }

  /** Every record of the catalog comes from some match whose name is not
      excluded, and has the shape `CandidateOfMatch` describes. */
  lemma {:induction false} CatalogRecordShape(text: string, matches: seq<AnchorMatch>, j: nat, extract: Extractor)
    requires WellFormedMatches(text, matches) && j < |Catalog(text, matches, extract)|
    ensures var h := Catalog(text, matches, extract)[j];
      && SectionsOfBody(h, extract)
      && Retained(h["name"])
      && FramedSource(h["source"])
      && exists i :: 0 <= i < |matches| && h == Candidate(text, Positions(matches), i, extract)
                                          && h["name"] == Strip(matches[i].nameGroup)
                                          && h["pinyin"] == Strip(matches[i].pinyinGroup)
                                          && h["source"] == "《" + Strip(matches[i].sourceGroup) + "》"
  {
    var positions := Positions(matches);
    var idx := KeptIndices(positions, |matches|);
    KeptIndicesExact(positions, |matches|);
    var i := idx[j];
    assert i in idx;
    CandidateOfMatch(text, matches, i, extract);
  }

  // ---------------------------------------------------------------------
  // Bodies under the default anchor pattern.
  // ---------------------------------------------------------------------

  /** Matches of the default pattern `[。$]\n^...`: each starts at a '。' or
      '$' that is followed by '\n', and the header continues past that
      '\n'. */
  predicate DefaultAnchors(text: string, matches: seq<AnchorMatch>)
  {
    forall i :: 0 <= i < |matches| ==>
      && matches[i].start + 2 < matches[i].end <= |text|
      && (text[matches[i].start] == '。' || text[matches[i].start] == '$')
      && text[matches[i].start + 1] == '\n'
  }

  /** Under the default pattern a body starts two characters after its
      match, at the header line itself, and reaches at least to the end of
      the match: the body holds the whole header line. */
  lemma {:induction false} DefaultAnchorBody(text: string, matches: seq<AnchorMatch>, i: nat)
    requires WellFormedMatches(text, matches) && DefaultAnchors(text, matches) && i < |matches|
    ensures var positions, s := Positions(matches), matches[i].start;
      && BodyStart(text, s) == s + 2
      && s + 2 < matches[i].end <= BodyEnd(text, positions, i)
      && Body(text, positions, i) == text[s + 2..BodyEnd(text, positions, i)]
  {
    var positions, s := Positions(matches), matches[i].start;
    var b := BodyStart(text, s);
    assert text[s + 1] == '\n' && text[s] != '\n';
    assert b == s + 2;
    if i + 1 < |matches| {
      assert matches[i].end <= matches[i + 1].start;
    }
    var e := BodyEnd(text, positions, i);
    assert Body(text, positions, i) == text[s + 2..e];
  }

  /** Where the text is cut: at each match, and at the end. */
  function MatchCuts(text: string, matches: seq<AnchorMatch>): (cuts: seq<nat>)
    requires WellFormedMatches(text, matches)
    ensures Cuts(text, cuts) && |cuts| == |matches| + 1 && cuts[|matches|] == |text|
    ensures forall j :: 0 <= j < |matches| ==> cuts[j] == matches[j].start
  {
    seq(|matches|, j requires 0 <= j < |matches| => matches[j].start) + [|text|]
  }

  /** Each match's two anchor characters followed by its body, in match order. */
  function Chunks(text: string, matches: seq<AnchorMatch>): (cs: seq<string>)
    requires WellFormedMatches(text, matches) && DefaultAnchors(text, matches)
    ensures |cs| == |matches|
  {
    seq(|matches|, j requires 0 <= j < |matches| =>
      text[matches[j].start..matches[j].start + 2] + Body(text, Positions(matches), j))
  }

  /** The anchor of match `i` followed by its body is the text from the
      match up to the next match (or the end). */
  lemma {:induction false} ChunkIsSlice(text: string, matches: seq<AnchorMatch>, i: nat)
    requires WellFormedMatches(text, matches) && DefaultAnchors(text, matches) && i < |matches|
    ensures Chunks(text, matches)[i] == Pieces(text, MatchCuts(text, matches))[i]
  {
    var positions, s := Positions(matches), matches[i].start;
    var e := BodyEnd(text, positions, i);
    DefaultAnchorBody(text, matches, i);
    SliceJoin(text, s, s + 2, e);
  }

  /** The bodies tile the text: the anchors and the bodies, in match order,
      make up the text from the first match on, so no character is lost or
      repeated, and the only characters outside every body are the
      anchors' '。'/'$' and '\n' (and the text before the first match). */
  lemma {:induction false} BodiesTileText(text: string, matches: seq<AnchorMatch>)
    requires WellFormedMatches(text, matches) && DefaultAnchors(text, matches) && |matches| > 0
    ensures Concat(Chunks(text, matches)) == text[matches[0].start..]
  {
    var cuts := MatchCuts(text, matches);
    forall i | 0 <= i < |matches|
      ensures Chunks(text, matches)[i] == Pieces(text, cuts)[i]
    {
      ChunkIsSlice(text, matches, i);
    }
    assert Chunks(text, matches) == Pieces(text, cuts);
    ConcatPieces(text, cuts);
  }

  /** A store built from the catalog never raises `KeyError`: every record
      carries every field the queries read. */
  lemma {:induction false} CatalogQueriesSucceed(text: string, matches: seq<AnchorMatch>, extract: Extractor,
                                                 key: string, test: string -> bool)
    requires WellFormedMatches(text, matches) && key in RecordKeys
    ensures Select(Catalog(text, matches, extract), key, test).Success?
  {
    var catalog := Catalog(text, matches, extract);
    forall j | 0 <= j < |catalog|
      ensures key in catalog[j]
    {
      CatalogRecordShape(text, matches, j, extract);
    }
  }

  // ---------------------------------------------------------------------
  // The record store `HerbDatabase` of herb_parser.py.
  // ---------------------------------------------------------------------

  /** A list of herb records with lookups by name, property and efficacy. */
  class HerbDatabase {
    /** `self.herbs`, in insertion order. */
    var herbs: seq<Herb>

    /** `HerbDatabase(herbs)`: the given records; no records when the
        argument is omitted or empty (`herbs or []`). */
    constructor (initial: Option<seq<Herb>>)
      ensures herbs == if initial.Some? then initial.value else []
    {
      herbs := if initial.Some? then initial.value else [];
    }

    /** `add_herb`: appends one record; the count grows by one, and a name
        lookup that succeeded before now also returns the new record. */
    method AddHerb(herb: Herb)
      modifies this
      ensures herbs == old(herbs) + [herb]
      ensures GetHerbCount() == old(GetHerbCount()) + 1
      ensures "name" in herb && old(GetHerbsByName(herb["name"])).Success? ==>
                GetHerbsByName(herb["name"]) == Success(old(GetHerbsByName(herb["name"])).value + [herb])
    {
      if "name" in herb && Select(herbs, "name", NameIs(herb["name"])).Success? {
        SelectSnoc(herbs, herb, "name", NameIs(herb["name"]));
      }
      herbs := herbs + [herb];
    }

    /** `get_herbs_by_name`: the stored records whose name is `name`, in
        stored order; `KeyError` when some record has no name. */
    function GetHerbsByName(name: string): (r: Result<seq<Herb>, LookupError>)
      reads this
      ensures r.Failure? <==> exists i :: 0 <= i < |herbs| && "name" !in herbs[i]
      ensures r.Success? ==> forall h :: h in r.value ==> h in herbs && h["name"] == name
      ensures r.Success? ==> forall i :: 0 <= i < |herbs| && herbs[i]["name"] == name ==> herbs[i] in r.value
      ensures r.Success? ==> exists idx :: PicksExactly(r.value, herbs, idx, "name", NameIs(name))
    {
      SelectInOrder(herbs, "name", NameIs(name));
      Select(herbs, "name", NameIs(name))
    }

    /** `get_herbs_by_property`: the stored records whose properties text
        contains `propertyValue`; `KeyError` when some record has none. */
    function GetHerbsByProperty(propertyValue: string): (r: Result<seq<Herb>, LookupError>)
      reads this
      ensures r.Failure? <==> exists i :: 0 <= i < |herbs| && "properties" !in herbs[i]
      ensures r.Success? ==> forall h :: h in r.value ==> h in herbs && IsSubstring(propertyValue, h["properties"])
      ensures r.Success? ==> forall i :: 0 <= i < |herbs| && IsSubstring(propertyValue, herbs[i]["properties"]) ==>
                                herbs[i] in r.value
      ensures r.Success? ==> exists idx :: PicksExactly(r.value, herbs, idx, "properties", Mentions(propertyValue))
    {
      SelectInOrder(herbs, "properties", Mentions(propertyValue));
      Select(herbs, "properties", Mentions(propertyValue))
    }

    /** `get_herbs_by_efficacy`: the stored records whose efficacy text
        contains `efficacy`; `KeyError` when some record has none. */
    function GetHerbsByEfficacy(efficacy: string): (r: Result<seq<Herb>, LookupError>)
      reads this
      ensures r.Failure? <==> exists i :: 0 <= i < |herbs| && "efficacy" !in herbs[i]
      ensures r.Success? ==> forall h :: h in r.value ==> h in herbs && IsSubstring(efficacy, h["efficacy"])
      ensures r.Success? ==> forall i :: 0 <= i < |herbs| && IsSubstring(efficacy, herbs[i]["efficacy"]) ==>
                                herbs[i] in r.value
      ensures r.Success? ==> exists idx :: PicksExactly(r.value, herbs, idx, "efficacy", Mentions(efficacy))
    {
      SelectInOrder(herbs, "efficacy", Mentions(efficacy));
      Select(herbs, "efficacy", Mentions(efficacy))
    }

    /** `get_all_herbs`: every stored record, in stored order. */
    function GetAllHerbs(): (r: seq<Herb>)
      reads this
      ensures r == herbs
    {
      herbs
    }

    /** `get_herb_count`: the number of records `get_all_herbs` returns. */
    function GetHerbCount(): (n: nat)
      reads this
      ensures n == |GetAllHerbs()|
    {
      |herbs|
    }
  }
}
