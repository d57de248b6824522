# TCM-HerbDB core in Dafny

A model of the core of TCM-HerbDB, a Python package that turns the plain
text of a traditional Chinese materia medica into a list of herb records
and keeps those records in a small in-memory store.

- **Segmenter** (`HerbParser.extract_herb_info`). Each match of the anchor
  pattern is one monograph header. It gives a name, a pinyin reading and a
  source title in 《》.
  - The first loop collects one entry per match.
  - The second loop cuts each entry's body. The body starts one past the
    first `'\n'` at or after the match start, or at the match start when
    there is none. It ends at the next match start, or at the end of the
    text.
  - The second loop then builds a ten-field record from the entry and its
    body.
  - Entries whose name starts with 附药, 附方 or 附录 are dropped.
- **Section extraction** (`extract_section`). The text after a bracketed
  title such as 【功效】, up to the next `'【'` or the end, stripped. The
  empty string when the title is missing.
- **Record stores**:
  - `HerbDatabase` in `herb_parser.py` and `BaseHerbDatabase` in
    `database.py` each hold a list of records. They support appending,
    lookup by exact name and lookup by substring of the properties or
    efficacy text. A lookup raises `KeyError` when a stored record lacks the
    field it reads.
  - `database.HerbDatabase` adds the table view of `to_dataframe`. Every row
    is padded to the union of all records' fields, with `""` for the fields
    a record lacks.

## Modelling decisions

- **Regex matches are an input.** The anchor pattern's matches reach
  `ExtractHerbInfo` as a sequence of `AnchorMatch` values: the span and the
  three raw capture groups. `WellFormedMatches` states what
  `re.finditer` guarantees for any pattern: spans inside the text, in
  order, not overlapping (a span may be empty).
  `DefaultAnchors` adds what the default pattern `[。$]\n^…` guarantees:
  each match starts at a `'。'` or `'$'` followed by `'\n'`, so its span
  is never empty.
- **Section extraction is modelled twice.** `extract_section` is a regular
  expression, `title(.*?)(?=【|$)` searched with DOTALL.
  - `Sections.ExtractSection` states it as an index search.
  - `Sections.RegexSection` reads the pattern literally. It stops the lazy
    group at the first `'【'`, at the end, or before a final `'\n'`, where
    `$` also matches without MULTILINE.
  - `ExtractSectionAgreesWithRegex` proves the two equal on every input.
  - The module-level `extract_section` (herb_parser.py:142-150) has the
    same body as the method, so one function models both.
- **Section extraction is a parameter.** The parser calls its extractor
  through `self`, so the segmentation functions take the extractor as a
  parameter (`Extractor`). `ExtractHerbInfo` passes `ExtractSection`.
- **Python strings are modelled directly.**
  - `str.strip` uses `str.isspace`; U+3000 (ideographic space) is included.
  - `str.find` returns `Option<nat>`, with `None` for Python's `-1`.
  - `in` on strings and slicing `s[a:b]` are modelled as in Python: a slice
    is empty when `a >= b`.
- **Records** are `map<string, string>`.
- **Lookups return a `Result`.** A lookup returns `Failure(KeyError(key))`
  where Python raises `KeyError`.
- **Where the body starts.** The comment at herb_parser.py:47 says that an
  entry starts on the line after the matched line, and the model follows
  the code, which does otherwise. Under the default pattern the first
  `'\n'` at or after a match start is the one just after the `'。'`, so
  the body begins at the header line itself, and `full_content` holds the header
  (`DefaultAnchorBody`). Since a body ends at the next match start, the
  final `'。'` of one monograph belongs to the next match. It is in no body
  (`BodiesTileText`).

## Model

| member | source | states |
|---|---|---|
| Strings.Find | src/tcm_herbdb/herb_parser.py:50 | `str.find`: the first occurrence at or after `start`, and no occurrence when `None` |
| Strings.IndexOfChar | src/tcm_herbdb/herb_parser.py:50 | the first index of a character at or after a point, or the length when there is none; no earlier index holds it |
| Strings.FindChar | src/tcm_herbdb/herb_parser.py:50-52 | searching for a one-character string finds exactly the first index of that character |
| Strings.Contains | src/tcm_herbdb/herb_parser.py:127 | Python's `q in s` holds exactly when `q` occurs in `s` |
| Strings.Slice | src/tcm_herbdb/herb_parser.py:63 | `text[a:b]` has length `b - a` (0 when `a >= b`) and holds the characters from `a` on |
| Strings.Strip | src/tcm_herbdb/herb_parser.py:33-35 | `strip` leaves no whitespace at either end |
| Strings.StripSpan | src/tcm_herbdb/herb_parser.py:95 | `strip` keeps one contiguous span of its argument and drops only whitespace before and after it |
| Strings.TrimLeftSpan | src/tcm_herbdb/herb_parser.py:95 | the left half of `strip` drops a whitespace prefix and stops at the first other character |
| Strings.TrimRightSpan | src/tcm_herbdb/herb_parser.py:95 | the right half of `strip` drops a whitespace suffix and stops at the last other character |
| Strings.ConcatPieces | src/tcm_herbdb/herb_parser.py:55-63 | slices between consecutive cut points, laid end to end, give back the text from the first cut to the last |
| Sections.ExtractSectionBounds | src/tcm_herbdb/herb_parser.py:88-96 | a missing title gives `""`; a section never holds a `'【'` and is always a piece of the content |
| Sections.SectionFromFacts | src/tcm_herbdb/herb_parser.py:92-95 | the stripped text up to the next `'【'` holds no `'【'` and occurs in the content |
| Sections.SectionAtBounds | src/tcm_herbdb/herb_parser.py:92-95 | where the title occurs, the section is a piece of the content without `'【'` |
| Sections.ExtractSectionAgreesWithRegex | src/tcm_herbdb/herb_parser.py:92-95 | the index-search reading equals the literal regular-expression reading on every content and title |
| Sections.LazyGroupEndVersusSectionOpen | src/tcm_herbdb/herb_parser.py:92 | the lazy group stops at the next `'【'`, except that it leaves out a final `'\n'` when no `'【'` comes first |
| Sections.GroupStripsAlike | src/tcm_herbdb/herb_parser.py:92-95 | once stripped, the lazy group and the text up to the next `'【'` are equal |
| Sections.StripIgnoresFinalSpace | src/tcm_herbdb/herb_parser.py:95 | a trailing whitespace character never changes the stripped result |
| Sections.NoTitleNoSection | src/tcm_herbdb/herb_parser.py:94-96 | without the title, both readings give `""` |
| Sections.BothSectionsAt | src/tcm_herbdb/herb_parser.py:92-95 | at the title's first occurrence, both readings give the same section |
| Sections.ExtractSectionAt | src/tcm_herbdb/herb_parser.py:92-95 | the section is scanned from just after the title's first occurrence |
| Sections.RegexSectionAt | src/tcm_herbdb/herb_parser.py:92-93 | `re.search` matches at the title's first occurrence, because the lazy group can always reach the end |
| Sections.ExtractSectionOfSplit | src/tcm_herbdb/herb_parser.py:88-96 | title first, then text without `'【'`, then `'【'` or the end: the section is that text, stripped |
| Sections.SectionEndsAfter | src/tcm_herbdb/herb_parser.py:92 | text without `'【'` followed by a `'【'` or the end is exactly what the section scan covers |
| Sections.SampleSecondTitleIsFirstAt8 | tests/tcm_herbdb/test_herb_parser.py:63 | in the sample text, 【功效】 first occurs at index 8 |
| Sections.ExtractSectionSampleProperties | tests/tcm_herbdb/test_herb_parser.py:61-65 | the sample text's 【药性】 section is `寒、凉。` |
| Sections.ExtractSectionSampleEfficacy | tests/tcm_herbdb/test_herb_parser.py:67-68 | the sample text's 【功效】 section is `清热解毒，凉血消斑。` |
| HerbRecords.Select | src/tcm_herbdb/herb_parser.py:121-131 | a lookup comprehension: `KeyError` exactly when a stored record lacks the field; otherwise every stored record whose field passes is returned, and nothing else |
| HerbRecords.SelectSnoc | src/tcm_herbdb/herb_parser.py:117-123 | after appending a record that has the field, the result grows by that record exactly when it passes |
| HerbRecords.SelectPicksExactly | src/tcm_herbdb/herb_parser.py:121-131 | the result is the passing records in stored order, at increasing positions, each exactly once |
| HerbRecords.SelectInOrder | src/tcm_herbdb/herb_parser.py:121-131 | whenever the comprehension succeeds, it keeps exactly the passing records, in stored order and with their multiplicity |
| HerbRecords.PicksExtend | src/tcm_herbdb/herb_parser.py:122 | one more record extends the selection by itself exactly when it passes |
| HerbRecords.PicksAppend | src/tcm_herbdb/herb_parser.py:122 | a passing record is appended at the next position |
| HerbRecords.PicksSkip | src/tcm_herbdb/herb_parser.py:122 | a failing record leaves the selection as it was |
| HerbRecords.EmptyQuerySelectsAll | src/tcm_herbdb/herb_parser.py:125-131 | the empty query occurs in every value, so it returns the whole store |
| HerbParser.PositionOf | src/tcm_herbdb/herb_parser.py:32-42 | an entry keeps its match's span; its source is framed in 《》 |
| HerbParser.BodyStart | src/tcm_herbdb/herb_parser.py:48-52 | a body starts one past the first `'\n'` at or after the anchor; when there is none, at the anchor itself |
| HerbParser.BodyEnd | src/tcm_herbdb/herb_parser.py:55-60 | a body ends at the next entry's start, or at the end of the text for the last entry |
| HerbParser.RecordOf | src/tcm_herbdb/herb_parser.py:66-77 | a record has exactly the ten fields |
| HerbParser.RecordOfFields | src/tcm_herbdb/herb_parser.py:66-77 | each field holds the value given for it |
| HerbParser.Record | src/tcm_herbdb/herb_parser.py:66-77 | the `parts` dictionary has exactly the ten fields |
| HerbParser.CandidateFields | src/tcm_herbdb/herb_parser.py:63-77 | a candidate carries its entry's name, pinyin and source; its body is `full_content`; each section is extracted from that body; there is one candidate per entry, in entry order |
| HerbParser.KeptIndices | src/tcm_herbdb/herb_parser.py:79-83 | the entries kept among the first `n` are at most `n`, and each is below `n` |
| HerbParser.KeptIndicesExact | src/tcm_herbdb/herb_parser.py:79-83 | kept entries are listed in increasing order, and an entry is listed exactly when its name is not excluded |
| HerbParser.KeptIndicesCount | src/tcm_herbdb/herb_parser.py:79-83 | every entry is either kept or excluded |
| HerbParser.KeptIndicesAll | src/tcm_herbdb/herb_parser.py:79-81 | with no excluded name, every entry is kept, in order |
| HerbParser.CandidatesAtSnoc | src/tcm_herbdb/herb_parser.py:81 | listing one more entry appends its candidate |
| HerbParser.KeptPrefixStep | src/tcm_herbdb/herb_parser.py:79-83 | one more entry appends its record exactly when its name is not excluded |
| HerbParser.CollectPositions | src/tcm_herbdb/herb_parser.py:31-42 | the first loop builds one entry per match, in match order |
| HerbParser.EntryRecord | src/tcm_herbdb/herb_parser.py:48-77 | the loop body for entry `i` builds that entry's candidate record, whose name is the entry's name |
| HerbParser.ExtractHerbInfo | src/tcm_herbdb/herb_parser.py:19-86 | returns the catalog: the candidates of the non-excluded entries, in match order; no matches give no records |
| HerbParser.CatalogKeepsExactly | src/tcm_herbdb/herb_parser.py:79-83 | the catalog holds one candidate per kept entry, in entry order: the candidates of exactly the matches whose stripped name is not excluded |
| HerbParser.CatalogCount | src/tcm_herbdb/herb_parser.py:79-85 | the record count is the match count less the excluded entries |
| HerbParser.CatalogWithoutExclusions | src/tcm_herbdb/herb_parser.py:45-81 | a text without appendix entries yields one record per match: record `i` is the candidate of match `i` |
| HerbParser.CandidateOfMatch | src/tcm_herbdb/herb_parser.py:32-77 | a match's candidate holds its stripped name and pinyin, the source stripped and framed in 《》, the ten fields, and the sections of its body |
| HerbParser.CatalogRecordShape | src/tcm_herbdb/herb_parser.py:66-83 | every catalog record has the ten fields, sections drawn from its own body, a non-excluded name and a framed source, and comes from some match |
| HerbParser.CatalogQueriesSucceed | tests/tcm_herbdb/test_herb_parser.py:33-41 | every catalog record has the fields the lookups read, so a lookup over the catalog never raises `KeyError` |
| HerbParser.DefaultAnchorBody | src/tcm_herbdb/herb_parser.py:48-63 | under the default pattern, a body starts two characters after its match and covers the whole header |
| HerbParser.MatchCuts | src/tcm_herbdb/herb_parser.py:55-60 | the cut points are the match starts in order, then the end of the text |
| HerbParser.ChunkIsSlice | src/tcm_herbdb/herb_parser.py:48-63 | a match's two anchor characters plus its body are exactly the text up to the next match, or to the end |
| HerbParser.BodiesTileText | src/tcm_herbdb/herb_parser.py:45-63 | anchors and bodies, in match order, make up the text from the first match on: no character lost or repeated |
| HerbParser.HerbDatabase.constructor | src/tcm_herbdb/herb_parser.py:114-115 | the store starts with the given records, or with none when the argument is omitted |
| HerbParser.HerbDatabase.AddHerb | src/tcm_herbdb/herb_parser.py:117-119 | appends the record; the count grows by one; a name lookup that succeeded before now also returns the new record |
| HerbParser.HerbDatabase.GetHerbsByName | src/tcm_herbdb/herb_parser.py:121-123 | `KeyError` exactly when some record has no name; otherwise exactly the stored records with that name, in stored order and with their multiplicity |
| HerbParser.HerbDatabase.GetHerbsByProperty | src/tcm_herbdb/herb_parser.py:125-127 | `KeyError` exactly when some record has no properties; otherwise exactly the records whose properties contain the query, in stored order and with their multiplicity |
| HerbParser.HerbDatabase.GetHerbsByEfficacy | src/tcm_herbdb/herb_parser.py:129-131 | `KeyError` exactly when some record has no efficacy; otherwise exactly the records whose efficacy contains the query, in stored order and with their multiplicity |
| HerbParser.HerbDatabase.GetAllHerbs | src/tcm_herbdb/herb_parser.py:133-135 | every stored record, in stored order |
| HerbParser.HerbDatabase.GetHerbCount | src/tcm_herbdb/herb_parser.py:137-139 | the count equals the number of records `get_all_herbs` returns |
| Database.BaseHerbDatabase.constructor | src/tcm_herbdb/database.py:13-14 | the store starts with the given records, or with none when the argument is omitted |
| Database.BaseHerbDatabase.AddHerb | src/tcm_herbdb/database.py:16-18 | appends the record; the count grows by one; a name lookup that succeeded before now also returns the new record |
| Database.BaseHerbDatabase.GetHerbsByName | src/tcm_herbdb/database.py:20-22 | `KeyError` exactly when some record has no name; otherwise exactly the stored records with that name, in stored order and with their multiplicity |
| Database.BaseHerbDatabase.GetHerbsByProperty | src/tcm_herbdb/database.py:24-26 | `KeyError` exactly when some record has no properties; otherwise exactly the records whose properties contain the query, in stored order and with their multiplicity |
| Database.BaseHerbDatabase.GetHerbsByEfficacy | src/tcm_herbdb/database.py:28-30 | `KeyError` exactly when some record has no efficacy; otherwise exactly the records whose efficacy contains the query, in stored order and with their multiplicity |
| Database.BaseHerbDatabase.GetAllHerbs | src/tcm_herbdb/database.py:32-34 | every stored record, in stored order |
| Database.BaseHerbDatabase.GetHerbCount | src/tcm_herbdb/database.py:36-38 | the count equals the number of records `get_all_herbs` returns |
| Database.AllKeys | src/tcm_herbdb/database.py:57-59 | the key union contains every field of every record |
| Database.AllKeysUsed | src/tcm_herbdb/database.py:57-59 | the key union holds only fields that some record has |
| Database.AllKeysOfUniform | src/tcm_herbdb/database.py:57-59 | when all records share one set of fields, the union is that set |
| Database.Padded | src/tcm_herbdb/database.py:64 | a padded row has exactly the given columns |
| Database.PaddedFull | src/tcm_herbdb/database.py:64 | a record whose fields are exactly the columns is its own row |
| Database.Normalized | src/tcm_herbdb/database.py:53-65 | one row per record, in order; every row has the union of all fields as columns, keeps its record's values, and holds `""` for the fields the record lacks |
| Database.NormalizedUniform | src/tcm_herbdb/database.py:61-65 | a store whose records share their fields is its own table |
| Database.CatalogNeedsNoPadding | src/tcm_herbdb/database.py:76-85 | the records `from_txt_file` stores all carry the same ten fields, so the table view leaves them unchanged |
| Database.HerbDatabase.constructor | src/tcm_herbdb/database.py:46-47 | the store starts with the given records, or with none when the argument is omitted |
| Database.HerbDatabase.ToDataFrame | src/tcm_herbdb/database.py:49-67 | both loops together return the normalized rows; an empty store gives no rows |

## Left out

- The regular-expression engine. The matches of the anchor pattern are an
  input, and `WellFormedMatches` / `DefaultAnchors` state what the model
  takes from them. The character classes of the name, pinyin and source
  groups are not modelled.
- The `HerbParser` class itself. It holds only the pattern string
  (herb_parser.py:16-17, with the default from `config.py`). `config.py`
  is not part of this model.
- `get_first_n_herbs` (herb_parser.py:98-106) and
  `HerbDatabase.from_txt_file` (database.py:76-85). Both read a file; only
  what `from_txt_file` stores is stated, by `CatalogNeedsNoPadding`.
- pandas and CSV output. `ToDataFrame` returns the normalized rows as a
  sequence of maps, not a `DataFrame`. `export_to_csv` (database.py:69-74)
  is file output. The DataFrame's column order, which follows Python's set
  iteration order, is not modelled.
- Logging calls (herb_parser.py:23, 28, 83, 85).
- The backward-compatible module-level wrappers (herb_parser.py:154-181).
  The module-level `extract_section` (142-150) is the same function as the
  method and is modelled by `Sections.ExtractSection`.
- Inheritance. `database.HerbDatabase` inherits the store operations of
  `BaseHerbDatabase`. Without subclassing here, `Database.HerbDatabase`
  carries only its constructor and `ToDataFrame`; the inherited operations
  are those of `Database.BaseHerbDatabase`.
- List aliasing. The stores keep the caller's list object and
  `get_all_herbs` returns it, so outside changes to that list show up in
  the store. Here the store holds a value (`seq`), and that sharing is not
  captured.
- Falsy arguments other than an omitted one. `herbs or []` replaces an
  empty list by a fresh empty list, which has the same contents, so
  `Some([])` and `None` give the same store.
- HerbParser.HerbDatabase.AddHerb, Database.BaseHerbDatabase.AddHerb: the
  effect on property and efficacy lookups is not stated. It follows from
  `HerbRecords.SelectSnoc`, as for name lookups.
