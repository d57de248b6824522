/**
 * Section extraction: `HerbParser.extract_section` and the module-level
 * `extract_section` of `herb_parser.py`, whose bodies are the same. A
 * section of a monograph starts after its bracketed title (such as
 * "【功效】") and runs to the next '【' or the end of the text.
 */
module Sections {
  import opened Wrappers
  import opened Strings

  /** The stripped text from `from` up to the next '【' (or the end). */
  function SectionFrom(content: string, from: nat): string
    requires from <= |content|
  {
    Strip(content[from..IndexOfChar(content, '【', from)])
  }

  /** Such a text never holds a '【' and is a piece of the content. */
  lemma {:induction false} SectionFromFacts(content: string, from: nat)
    requires from <= |content|
    ensures '【' !in SectionFrom(content, from)
    ensures IsSubstring(SectionFrom(content, from), content)
  {
    var e := IndexOfChar(content, '【', from);
    var body := content[from..e];
    var r := Strip(body);
    var a := StripOffset(body);
    StripSpan(body);
    assert body[a..a + |r|] == r;
    forall k | 0 <= k < |r| ensures r[k] == content[from + a + k] && r[k] != '【' {
      assert r[k] == body[a + k];
    }
    assert r == content[from + a..from + a + |r|];
    assert OccursAt(content, r, from + a);
  }

  /** The text of section `title` in `content`: everything after the first
      occurrence of the title up to the next '【' (or the end), stripped;
      the empty string when the title does not occur. */
  function ExtractSection(content: string, title: string): string
  {
    match Find(content, title, 0)
    case None => ""
    case Some(p) => SectionFrom(content, p + |title|)
  }

  /** A section is empty when its title is missing, never holds a '【', and
      is always a piece of the content. */
  lemma {:induction false} ExtractSectionBounds(content: string, title: string)
    ensures !IsSubstring(title, content) ==> ExtractSection(content, title) == ""
    ensures '【' !in ExtractSection(content, title)
    ensures IsSubstring(ExtractSection(content, title), content)
  {
    var f := Find(content, title, 0);
    if f.Some? {
      SectionAtBounds(content, title, f.value);
    } else {
      NoTitleNoSection(content, title);
      assert OccursAt(content, "", 0);
    }
  }

  /** Where the lazy group of `(.*?)(?=【|$)` stops when the pattern is
      searched with DOTALL and without MULTILINE: at the first '【', at the
      end of the text, or at a final '\n' (where `$` also matches). */
  function LazyGroupEnd(content: string, from: nat): (e: nat)
    requires from <= |content|
    ensures from <= e <= |content|
    decreases |content| - from
  {
    if from == |content| || content[from] == '【' || (from == |content| - 1 && content[from] == '\n') then from
    else LazyGroupEnd(content, from + 1)
  }

  /** `extract_section` read literally as its regular expression:
      `re.search(re.escape(title) + '(.*?)(?=【|$)', content, re.DOTALL)`
      matches at the first occurrence of the title, because the lazy group
      can always reach the end; the group is then stripped. */
  function RegexSection(content: string, title: string): string
  {
    match Find(content, title, 0)
    case None => ""
    case Some(p) => LazyGroup(content, p + |title|)
  }

  /** The stripped lazy group from `from`. */
  function LazyGroup(content: string, from: nat): string
    requires from <= |content|
  {
    Strip(content[from..LazyGroupEnd(content, from)])
  }

  /** The lazy group stops at the next '【', except that it leaves out a
      final '\n' when no '【' comes before it. */
  lemma {:induction false} LazyGroupEndVersusSectionOpen(content: string, from: nat)
    requires from <= |content|
    ensures var e := IndexOfChar(content, '【', from);
      || LazyGroupEnd(content, from) == e
      || (LazyGroupEnd(content, from) == |content| - 1 == e - 1 && content[|content| - 1] == '\n')
    decreases |content| - from
  {
    if !(from == |content| || content[from] == '【' || (from == |content| - 1 && content[from] == '\n')) {
      LazyGroupEndVersusSectionOpen(content, from + 1);
    }
  }

  lemma {:induction false} SliceSnoc(s: string, a: nat, b: nat)
    requires a < b <= |s|
    ensures s[a..b] == s[a..b - 1] + [s[b - 1]]
  {
  }

  /** A trailing whitespace character never survives `strip`. */
  lemma {:induction false} StripIgnoresFinalSpace(s: string, c: char)
    requires IsSpace(c)
    ensures Strip(s + [c]) == Strip(s)
  {
    assert (s + [c])[..|s|] == s;
  }

  /** The index-search description of `extract_section` agrees with its
      regular expression on every content and title. */
  lemma {:induction false} ExtractSectionAgreesWithRegex(content: string, title: string)
    ensures ExtractSection(content, title) == RegexSection(content, title)
  {
    var f := Find(content, title, 0);
    if f.Some? {
      BothSectionsAt(content, title, f.value);
    } else {
      NoTitleNoSection(content, title);
    }
  }

  /** Without the title both descriptions give the empty string. */
  lemma {:induction false} NoTitleNoSection(content: string, title: string)
    requires Find(content, title, 0).None?
    ensures ExtractSection(content, title) == "" && RegexSection(content, title) == ""
  {
  }

  /** Where the title first occurs at `p`, both descriptions agree. */
  lemma {:induction false} BothSectionsAt(content: string, title: string, p: nat)
    requires Find(content, title, 0) == Some(p)
    ensures ExtractSection(content, title) == RegexSection(content, title)
  {
    ExtractSectionAt(content, title, p);
    RegexSectionAt(content, title, p);
    GroupStripsAlike(content, p + |title|);
  }

  /** Where the title occurs, the section is a piece of the content without '【'. */
  lemma {:induction false} SectionAtBounds(content: string, title: string, p: nat)
    requires Find(content, title, 0) == Some(p)
    ensures IsSubstring(title, content)
    ensures '【' !in ExtractSection(content, title)
    ensures IsSubstring(ExtractSection(content, title), content)
  {
    assert OccursAt(content, title, p);
    ExtractSectionAt(content, title, p);
    SectionFromFacts(content, p + |title|);
  }

  /** Where the title first occurs at `p`, the section is the text scanned from just after it. */
  lemma {:induction false} ExtractSectionAt(content: string, title: string, p: nat)
    requires Find(content, title, 0) == Some(p)
    ensures p + |title| <= |content|
    ensures ExtractSection(content, title) == SectionFrom(content, p + |title|)
  {
    assert OccursAt(content, title, p);
  }

  /** Where the title first occurs at `p`, the regular expression's group starts just after it. */
  lemma {:induction false} RegexSectionAt(content: string, title: string, p: nat)
    requires Find(content, title, 0) == Some(p)
    ensures p + |title| <= |content|
    ensures RegexSection(content, title) == LazyGroup(content, p + |title|)
  {
  }

  /** From any start, the stripped lazy group equals the stripped text up to
      the next '【'. */
  lemma {:induction false} GroupStripsAlike(content: string, from: nat)
    requires from <= |content|
    ensures SectionFrom(content, from) == LazyGroup(content, from)
  {
    var e := IndexOfChar(content, '【', from);
    var g := LazyGroupEnd(content, from);
    assert SectionFrom(content, from) == Strip(content[from..e]);
    assert LazyGroup(content, from) == Strip(content[from..g]);
    LazyGroupEndVersusSectionOpen(content, from);
    if g != e {
      SliceSnoc(content, from, e);
      StripIgnoresFinalSpace(content[from..g], '\n');
    }
  }

  /** The index description of `extract_section`: when the first
      occurrence of the title is followed by a text without '【' and then by
      a '【' or the end, the section is that text, stripped. */
  lemma {:induction false} ExtractSectionOfSplit(pre: string, title: string, body: string, rest: string)
    requires forall k: nat :: k < |pre| ==> !OccursAt(pre + title + body + rest, title, k)
    requires '【' !in body
    requires rest == [] || rest[0] == '【'
    ensures ExtractSection(pre + title + body + rest, title) == Strip(body)
  {
    var content := pre + title + body + rest;
    var p, from := |pre|, |pre| + |title|;
    assert content[p..from] == title;
    assert Find(content, title, 0) == Some(p) by {
      assert OccursAt(content, title, p);
    }
    ExtractSectionAt(content, title, p);
    SectionEndsAfter(content, from, body);
  }

  /** A text without '【' at `from`, followed by a '【' or the end, is
      exactly what the section scan covers. */
  lemma {:induction false} SectionEndsAfter(content: string, from: nat, body: string)
    requires from + |body| <= |content| && content[from..from + |body|] == body
    requires '【' !in body
    requires from + |body| == |content| || content[from + |body|] == '【'
    ensures content[from..IndexOfChar(content, '【', from)] == body
  {
    var e := IndexOfChar(content, '【', from);
    forall k | from <= k < from + |body| ensures content[k] != '【' {
      assert content[k] == body[k - from];
    }
    assert e == from + |body|;
  }

  /** The sample monograph text of the parser's tests, cut around either section. */
  lemma SampleText()
    ensures "【药性】寒、凉。【功效】清热解毒，凉血消斑。" == "" + "【药性】" + "寒、凉。" + "【功效】清热解毒，凉血消斑。"
    ensures "【药性】寒、凉。【功效】清热解毒，凉血消斑。" == "【药性】寒、凉。" + "【功效】" + "清热解毒，凉血消斑。" + ""
  {
  }

  /** "【功效】" does not occur before index 8 of the sample text. */
  lemma {:induction false} SampleSecondTitleIsFirstAt8()
    ensures forall k: nat :: k < 8 ==> !OccursAt("【药性】寒、凉。【功效】清热解毒，凉血消斑。", "【功效】", k)
  {
    var s := "【药性】寒、凉。【功效】清热解毒，凉血消斑。";
    forall k: nat | k < 8 ensures !OccursAt(s, "【功效】", k) {
      assert s[k..k + 4][1] == s[k + 1];
      if k == 0 { assert s[1] == '药'; }
      else if k == 1 { assert s[2] == '性'; }
      else if k == 2 { assert s[3] == '】'; }
      else if k == 3 { assert s[4] == '寒'; }
      else if k == 4 { assert s[5] == '、'; }
      else if k == 5 { assert s[6] == '凉'; }
      else if k == 6 { assert s[7] == '。'; }
      else { assert s[8] == '【'; }
    }
  }

  /** The first section of the sample monograph text of the parser's tests. */
  lemma {:induction false} ExtractSectionSampleProperties()
    ensures ExtractSection("【药性】寒、凉。【功效】清热解毒，凉血消斑。", "【药性】") == "寒、凉。"
  {
    SampleText();
    ExtractSectionOfSplit("", "【药性】", "寒、凉。", "【功效】清热解毒，凉血消斑。");
    assert Strip("寒、凉。") == "寒、凉。";
  }

  /** The second section of the sample monograph text of the parser's tests. */
  lemma {:induction false} ExtractSectionSampleEfficacy()
    ensures ExtractSection("【药性】寒、凉。【功效】清热解毒，凉血消斑。", "【功效】") == "清热解毒，凉血消斑。"
  {
    SampleText();
    SampleSecondTitleIsFirstAt8();
    ExtractSectionOfSplit("【药性】寒、凉。", "【功效】", "清热解毒，凉血消斑。", "");
    assert Strip("清热解毒，凉血消斑。") == "清热解毒，凉血消斑。";
  }
}
