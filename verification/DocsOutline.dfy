/**
 The outline of a documentation page: the anchors given to its headings, and the heading levels that
 are accepted. Tokens come from the Markdown parser; a heading carries its title and the base slug
 made from it.
 */
module DocsOutline {
  import opened Wrappers
  import opened Sequences
  import opened Sets
  import Text

  type Level = n: nat | 1 <= n <= 6 witness 1

  datatype Title = Title(level: Level, text: string, base: string)

  datatype Token = HeadingOpen(heading: Title) | Fence(mapped: bool, closed: bool) | Other

  datatype Heading = Heading(title: string, anchor: string, level: Level)

  /** `ids` holds the id attribute given to every heading token, in order. */
  datatype Document = Document(title: string, headings: seq<Heading>, anchors: set<string>, ids: seq<string>)

  // ---- Slugs ------------------------------------------------------------------------------

  /** The candidates for a base slug: the base itself, then the base with suffix 1, 2, 3, … */
  function Candidate(base: string, n: nat): string {
    if n == 0 then base else base + "-" + Text.Decimal(n)
  }

  lemma CandidatesDiffer(base: string, m: nat, n: nat)
    requires Candidate(base, m) == Candidate(base, n)
    ensures m == n
  {
    if m > 0 && n > 0 {
      assert Candidate(base, m)[|base| + 1..] == Text.Decimal(m);
      assert Candidate(base, n)[|base| + 1..] == Text.Decimal(n);
      Text.DecimalInjective(m, n);
    } else {
      assert |Candidate(base, m)| == |Candidate(base, n)|;
    }
  }

  ghost function Candidates(base: string, n: nat): set<string> {
    if n == 0 then {} else Candidates(base, n - 1) + {Candidate(base, n - 1)}
  }

  lemma {:induction false} CandidatesMember(base: string, n: nat, s: string)
    ensures s in Candidates(base, n) <==> exists m: nat | m < n :: s == Candidate(base, m)
  {
    if n > 0 {
      CandidatesMember(base, n - 1, s);
      if s == Candidate(base, n - 1) {
        assert exists m: nat | m < n :: s == Candidate(base, m);
      }
    }
  }

  lemma NewCandidate(base: string, n: nat)
    ensures Candidate(base, n) !in Candidates(base, n)
  {
    CandidatesMember(base, n, Candidate(base, n));
    forall m: nat | m < n ensures Candidate(base, m) != Candidate(base, n) {
      if Candidate(base, m) == Candidate(base, n) {
        CandidatesDiffer(base, m, n);
        assert false;
      }
    }
  }

  lemma {:induction false} CandidatesSize(base: string, n: nat)
    ensures |Candidates(base, n)| == n
    ensures forall s :: s in Candidates(base, n) <==> exists m: nat | m < n :: s == Candidate(base, m)
  {
    if n > 0 {
      CandidatesSize(base, n - 1);
      NewCandidate(base, n - 1);
    }
    forall s ensures s in Candidates(base, n) <==> exists m: nat | m < n :: s == Candidate(base, m) {
      CandidatesMember(base, n, s);
    }
  }

  /** The first candidate that is still free. */
  ghost predicate IsSlug(base: string, taken: set<string>, slug: string) {
    exists n: nat :: IsFirstFree(base, taken, n) && slug == Candidate(base, n)
  }

  ghost predicate IsFirstFree(base: string, taken: set<string>, n: nat) {
    Candidate(base, n) !in taken && Candidates(base, n) <= taken
  }

  lemma FirstFreeUnique(base: string, taken: set<string>, m: nat, n: nat)
    requires IsFirstFree(base, taken, m) && IsFirstFree(base, taken, n)
    ensures m == n
  {
    CandidatesSize(base, m);
    CandidatesSize(base, n);
  }

  lemma BaseKeptWhenFree(base: string, taken: set<string>, n: nat)
    requires IsFirstFree(base, taken, n)
    ensures n == 0 <==> base !in taken
  {
    CandidatesSize(base, n);
    assert n > 0 ==> Candidate(base, 0) in Candidates(base, n);
  }

  /** The search for a free slug: it ends because the anchors are finite and the candidates all differ. */
  method FreeSlug(base: string, anchors: set<string>) returns (slug: string)
    ensures IsSlug(base, anchors, slug)
  {
    var suffix: nat := 0;
    slug := base;
    CandidatesSize(base, 0);
    while slug in anchors
      invariant slug == Candidate(base, suffix)
      invariant Candidates(base, suffix) <= anchors && |Candidates(base, suffix)| == suffix <= |anchors|
      decreases |anchors| - suffix
    {
      suffix := suffix + 1;
      slug := base + "-" + Text.Decimal(suffix);
      CandidatesSize(base, suffix);
      SubsetSize(Candidates(base, suffix), anchors);
    }
  }

  /** Every heading gets the first candidate that no earlier heading has taken. */
  ghost predicate Assigned(bases: seq<string>, ids: seq<string>) {
    |ids| == |bases| && forall i | 0 <= i < |ids| :: SlugAt(bases, ids, i)
  }

  ghost predicate SlugAt(bases: seq<string>, ids: seq<string>, i: nat)
    requires i < |ids| == |bases|
  {
    IsSlug(bases[i], Elements(ids[..i]), ids[i])
  }

  /** The anchors of a page are pairwise different, and a heading keeps its base whenever that was free. */
  lemma AnchorsDistinct(bases: seq<string>, ids: seq<string>)
    requires Assigned(bases, ids)
    ensures Distinct(ids)
    ensures forall i | 0 <= i < |ids| :: ids[i] == bases[i] <==> bases[i] !in ids[..i]
  {
    forall i | 0 <= i < |ids| ensures ids[i] !in ids[..i] && (ids[i] == bases[i] <==> bases[i] !in ids[..i]) {
      var taken := Elements(ids[..i]);
      assert SlugAt(bases, ids, i);
      var n: nat :| IsFirstFree(bases[i], taken, n) && ids[i] == Candidate(bases[i], n);
      BaseKeptWhenFree(bases[i], taken, n);
    }
    forall i, j | 0 <= i < j < |ids| ensures ids[i] != ids[j] {
      assert ids[..j][i] == ids[i];
    }
  }

  /** The suffix of a heading never exceeds the number of headings before it. */
  lemma SuffixBounded(bases: seq<string>, ids: seq<string>, i: nat, n: nat)
    requires Assigned(bases, ids) && i < |ids| && ids[i] == Candidate(bases[i], n)
    ensures n <= i
  {
    var taken := Elements(ids[..i]);
    assert SlugAt(bases, ids, i);
    var m: nat :| IsFirstFree(bases[i], taken, m) && ids[i] == Candidate(bases[i], m);
    CandidatesDiffer(bases[i], m, n);
    CandidatesSize(bases[i], n);
    SubsetSize(Candidates(bases[i], n), taken);
    DistinctSize(ids[..i]);
  }

  function Suffixed(base: string, m: nat): string {
    base + "-" + Text.Decimal(m)
  }

  /** Every suffix below m is in use. */
  ghost predicate UsedBelow(base: string, taken: set<string>, m: nat) {
    forall k: nat | 1 <= k < m :: Suffixed(base, k) in taken
  }

  lemma {:induction false} CandidatesTaken(base: string, taken: set<string>, n: nat)
    ensures Candidates(base, n) <= taken <==> n == 0 || (base in taken && UsedBelow(base, taken, n))
  {
    if n > 0 {
      CandidatesTaken(base, taken, n - 1);
      assert Candidates(base, n) <= taken <==> Candidates(base, n - 1) <= taken && Candidate(base, n - 1) in taken;
      if n > 1 {
        assert Candidate(base, n - 1) == Suffixed(base, n - 1);
        assert UsedBelow(base, taken, n) <==> UsedBelow(base, taken, n - 1) && Suffixed(base, n - 1) in taken;
      }
    }
  }

  ghost predicate IsLeastFree(base: string, taken: set<string>, slug: string, m: nat) {
    m >= 1 && slug == base + "-" + Text.Decimal(m) && slug !in taken && UsedBelow(base, taken, m)
  }

  /** The anchor of a heading: its base, or the base with the least number behind a dash that is free. */
  lemma SlugExact(base: string, taken: set<string>, slug: string)
    ensures IsSlug(base, taken, slug)
       <==> if base !in taken then slug == base else exists m: nat :: IsLeastFree(base, taken, slug, m)
  {
    forall n: nat ensures IsFirstFree(base, taken, n) && slug == Candidate(base, n)
                     <==> if n == 0 then base !in taken && slug == base
                          else base in taken && IsLeastFree(base, taken, slug, n)
    {
      CandidatesTaken(base, taken, n);
    }
    assert base !in taken ==> IsFirstFree(base, taken, 0);
  }

  lemma SlugUnique(base: string, taken: set<string>, s: string, t: string)
    requires IsSlug(base, taken, s) && IsSlug(base, taken, t)
    ensures s == t
  {
    var m: nat :| IsFirstFree(base, taken, m) && s == Candidate(base, m);
    var n: nat :| IsFirstFree(base, taken, n) && t == Candidate(base, n);
    FirstFreeUnique(base, taken, m, n);
  }

  lemma {:induction false} AnchorStable(bases: seq<string>, longer: seq<string>, ids: seq<string>, all: seq<string>,
                                        i: nat)
    requires bases <= longer && Assigned(bases, ids) && Assigned(longer, all) && i <= |ids|
    ensures all[..i] == ids[..i]
  {
    if i > 0 {
      var n := i - 1;
      AnchorStable(bases, longer, ids, all, n);
      assert SlugAt(bases, ids, n) && SlugAt(longer, all, n);
      SlugUnique(bases[n], Elements(ids[..n]), ids[n], all[n]);
      assert all[..i] == all[..n] + [all[n]] && ids[..i] == ids[..n] + [ids[n]];
    }
  }

  /** Headings added at the end leave the anchors of the earlier ones alone. */
  lemma AnchorsStable(bases: seq<string>, longer: seq<string>, ids: seq<string>, all: seq<string>)
    requires bases <= longer && Assigned(bases, ids) && Assigned(longer, all)
    ensures ids <= all
  {
    AnchorStable(bases, longer, ids, all, |ids|);
    assert all[..|ids|] == ids[..|ids|] == ids;
  }

  // ---- Levels -----------------------------------------------------------------------------

  /** No heading is more than one level below the heading before it. */
  predicate NoJumps(levels: seq<int>, previous: int) {
    levels == [] || (levels[0] <= previous + 1 && NoJumps(levels[1..], levels[0]))
  }

  function CountOnes(levels: seq<int>): nat {
    if levels == [] then 0 else CountOnes(levels[1..]) + if levels[0] == 1 then 1 else 0
  }

  /** Heading j is the parent of heading i: one level up, with nothing as high as i in between. */
  ghost predicate IsParent(levels: seq<int>, j: int, i: int) {
    && 0 <= j < i < |levels| && levels[j] + 1 == levels[i]
    && forall k | j < k < i :: levels[k] >= levels[i]
  }

  ghost predicate HasParent(levels: seq<int>, i: int) {
    exists j :: IsParent(levels, j, i)
  }

  /** A tree with one root: the first heading is the only H1, and every other heading has a parent. */
  ghost predicate IsOutline(levels: seq<int>) {
    levels != [] && levels[0] == 1 && forall i | 0 < i < |levels| :: levels[i] > 1 && HasParent(levels, i)
  }

  predicate StepAt(levels: seq<int>, i: int)
    requires 0 < i < |levels|
  {
    levels[i] <= levels[i - 1] + 1
  }

  lemma {:induction false} NoJumpsAt(levels: seq<int>, previous: int)
    requires levels != []
    ensures NoJumps(levels, previous)
       <==> levels[0] <= previous + 1 && forall i | 0 < i < |levels| :: StepAt(levels, i)
  {
    var tail := levels[1..];
    if tail != [] {
      NoJumpsAt(tail, levels[0]);
      forall i | 0 < i < |tail| ensures StepAt(tail, i) <==> StepAt(levels, i + 1) {
      }
      if forall i | 0 < i < |levels| :: StepAt(levels, i) {
        assert StepAt(levels, 1);
        assert forall i | 0 < i < |tail| :: StepAt(tail, i);
      }
      if NoJumps(levels, previous) {
        forall i | 0 < i < |levels| ensures StepAt(levels, i) {
          assert i == 1 || StepAt(tail, i - 1);
        }
      }
    }
  }

  lemma {:induction false} OnesCounted(levels: seq<int>)
    ensures CountOnes(levels) == 0 <==> forall i | 0 <= i < |levels| :: levels[i] != 1
  {
    if levels != [] {
      OnesCounted(levels[1..]);
      assert levels == [levels[0]] + levels[1..];
    }
  }

  /** Going back from i past everything not above it, one meets a heading exactly one level up. */
  lemma {:induction false} FindParent(levels: seq<int>, i: nat, k: nat)
    requires forall a | 0 < a < |levels| :: StepAt(levels, a)
    requires 0 < k <= i < |levels| && levels[0] == 1 && levels[i] > 1
    requires forall a | k <= a <= i :: levels[a] >= levels[i]
    ensures HasParent(levels, i)
    decreases k
  {
    assert StepAt(levels, k);
    if levels[k - 1] < levels[i] {
      assert IsParent(levels, k - 1, i);
    } else {
      FindParent(levels, i, k - 1);
    }
  }

  lemma OutlineSteps(levels: seq<int>, i: nat)
    requires IsOutline(levels) && 0 < i < |levels|
    ensures StepAt(levels, i)
  {
    assert HasParent(levels, i);
    var j :| IsParent(levels, j, i);
    assert j == i - 1 || levels[i - 1] >= levels[i];
  }

  /** The two checks accept exactly the outlines that form one tree. */
  lemma LevelsExact(levels: seq<int>)
    requires forall l | l in levels :: l >= 1
    ensures CountOnes(levels) == 1 && NoJumps(levels, 0) <==> IsOutline(levels)
  {
    if levels != [] {
      assert levels[0] in levels;
      NoJumpsAt(levels, 0);
      OnesCounted(levels[1..]);
      assert forall i | 0 < i < |levels| :: levels[1..][i - 1] == levels[i] && levels[i] in levels;
      if CountOnes(levels) == 1 && NoJumps(levels, 0) {
        forall i | 0 < i < |levels| ensures levels[i] > 1 && HasParent(levels, i) {
          FindParent(levels, i, i);
        }
      }
      if IsOutline(levels) {
        forall i | 0 < i < |levels| ensures StepAt(levels, i) {
          OutlineSteps(levels, i);
        }
      }
    }
  }

  // ---- A whole page -----------------------------------------------------------------------

  function Titles(tokens: seq<Token>): seq<Title> {
    if tokens == [] then []
    else
      var last := tokens[|tokens| - 1];
      Titles(tokens[..|tokens| - 1]) + if last.HeadingOpen? then [last.heading] else []
  }

  function Bases(titles: seq<Title>): seq<string> {
    seq(|titles|, i requires 0 <= i < |titles| => titles[i].base)
  }

  function Levels(titles: seq<Title>): (levels: seq<int>) {
    seq(|titles|, i requires 0 <= i < |titles| => titles[i].level)
  }

  function FirstLevelTexts(titles: seq<Title>): seq<string> {
    if titles == [] then []
    else
      var last := titles[|titles| - 1];
      FirstLevelTexts(titles[..|titles| - 1]) + if last.level == 1 then [last.text] else []
  }

  /** The second and third level, with the anchors they were given. */
  function Contents(titles: seq<Title>, ids: seq<string>): seq<Heading>
    requires |titles| == |ids|
  {
    if titles == [] then []
    else
      var n := |titles| - 1;
      Contents(titles[..n], ids[..n])
      + if 2 <= titles[n].level <= 3 then [Heading(titles[n].text, ids[n], titles[n].level)] else []
  }

  predicate IsClosed(token: Token) {
    token.Fence? && token.mapped ==> token.closed
  }

  predicate FencesClosed(tokens: seq<Token>) {
    forall i | 0 <= i < |tokens| :: IsClosed(tokens[i])
  }

  /** What the check refuses: a fence that has a place in the source and is not closed. */
  lemma FencesExact(tokens: seq<Token>)
    ensures FencesClosed(tokens) <==> forall t | t in tokens :: t != Fence(true, false)
  {
    if forall t | t in tokens :: t != Fence(true, false) {
      forall i | 0 <= i < |tokens| ensures IsClosed(tokens[i]) {
        assert tokens[i] in tokens;
      }
    }
  }

  lemma TitlesNext(tokens: seq<Token>, i: nat)
    requires i < |tokens|
    ensures Titles(tokens[..i + 1])
         == if tokens[i].HeadingOpen? then Titles(tokens[..i]) + [tokens[i].heading] else Titles(tokens[..i])
  {
    assert tokens[..i + 1][..i] == tokens[..i];
  }

  lemma {:induction false} OnesAppended(levels: seq<int>, level: int)
    ensures CountOnes(levels + [level]) == CountOnes(levels) + if level == 1 then 1 else 0
  {
    if levels == [] {
      assert levels + [level] == [level];
    } else {
      assert (levels + [level])[1..] == levels[1..] + [level];
      OnesAppended(levels[1..], level);
    }
  }

  lemma {:induction false} TextsCounted(titles: seq<Title>)
    ensures |FirstLevelTexts(titles)| == CountOnes(Levels(titles))
    ensures titles != [] && titles[0].level == 1 ==>
              FirstLevelTexts(titles) != [] && FirstLevelTexts(titles)[0] == titles[0].text
  {
    if titles != [] {
      var n := |titles| - 1;
      TextsCounted(titles[..n]);
      OnesAppended(Levels(titles[..n]), titles[n].level);
      assert Levels(titles) == Levels(titles[..n]) + [titles[n].level];
    }
  }

  lemma AssignedNext(bases: seq<string>, ids: seq<string>, base: string, slug: string)
    requires Assigned(bases, ids) && IsSlug(base, Elements(ids), slug)
    ensures Assigned(bases + [base], ids + [slug])
  {
    forall i | 0 <= i < |ids| + 1 ensures SlugAt(bases + [base], ids + [slug], i) {
      if i < |ids| {
        assert SlugAt(bases, ids, i);
        assert (ids + [slug])[..i] == ids[..i];
      } else {
        assert (ids + [slug])[..i] == ids;
      }
    }
  }

  /** The variables of the loop over the tokens. */
  datatype Reading = Reading(anchors: set<string>, headings: seq<Heading>, texts: seq<string>, levels: seq<int>,
                             ids: seq<string>)

  const NOTHING := Reading({}, [], [], [], [])

  /** What the headings read so far have left behind. */
  ghost predicate Recorded(titles: seq<Title>, r: Reading) {
    && Assigned(Bases(titles), r.ids) && r.anchors == Elements(r.ids) && |r.ids| == |titles|
    && r.headings == Contents(titles, r.ids) && r.texts == FirstLevelTexts(titles) && r.levels == Levels(titles)
  }

  lemma RecordedNext(titles: seq<Title>, r: Reading, title: Title, slug: string)
    requires Recorded(titles, r) && IsSlug(title.base, r.anchors, slug)
    ensures Recorded(titles + [title],
                     Reading(r.anchors + {slug},
                             r.headings + (if 2 <= title.level <= 3 then [Heading(title.text, slug, title.level)]
                                           else []),
                             r.texts + (if title.level == 1 then [title.text] else []),
                             r.levels + [title.level], r.ids + [slug]))
  {
    AssignedNext(Bases(titles), r.ids, title.base, slug);
    assert Bases(titles + [title]) == Bases(titles) + [title.base];
    assert (titles + [title])[..|titles|] == titles && (r.ids + [slug])[..|r.ids|] == r.ids;
    assert Levels(titles + [title]) == Levels(titles) + [title.level];
    assert Elements(r.ids + [slug]) == Elements(r.ids) + {slug};
  }

  /** The branch for a heading token. */
  method ReadHeading(r: Reading, title: Title, ghost titles: seq<Title>) returns (next: Reading)
    requires Recorded(titles, r)
    ensures Recorded(titles + [title], next)
  {
    var slug := FreeSlug(title.base, r.anchors);
    RecordedNext(titles, r, title, slug);
    next := r.(levels := r.levels + [title.level], anchors := r.anchors + {slug}, ids := r.ids + [slug]);
    if title.level == 1 {
      next := next.(texts := r.texts + [title.text]);
    }
    if title.level == 2 || title.level == 3 {
      next := next.(headings := r.headings + [Heading(title.text, slug, title.level)]);
    }
  }

  /** The loop over the tokens, which stops at a fence that is not closed. */
  method ReadTokens(tokens: seq<Token>) returns (r: Result<Reading>)
    ensures r.Ok? <==> FencesClosed(tokens)
    ensures r.Ok? ==> Recorded(Titles(tokens), r.value)
  {
    var reading := NOTHING;
    var index := 0;
    ghost var titles: seq<Title> := [];
    while index < |tokens|
      invariant 0 <= index <= |tokens|
      invariant titles == Titles(tokens[..index]) && Recorded(titles, reading)
      invariant forall i | 0 <= i < index :: IsClosed(tokens[i])
    {
      var token := tokens[index];
      TitlesNext(tokens, index);
      if token.HeadingOpen? {
        reading := ReadHeading(reading, token.heading, titles);
        titles := titles + [token.heading];
      }
      if token.Fence? && token.mapped && !token.closed {
        return Refused;
      }
      index := index + 1;
    }
    assert tokens[..index] == tokens;
    return Ok(reading);
  }

  /** The loop over the levels: no heading is more than one level below the one before. */
  method CheckLevels(levels: seq<int>) returns (ok: bool)
    ensures ok <==> NoJumps(levels, 0)
  {
    var previous, i := 0, 0;
    while i < |levels|
      invariant 0 <= i <= |levels|
      invariant NoJumps(levels, 0) <==> NoJumps(levels[i..], previous)
    {
      if levels[i] > previous + 1 {
        return false;
      }
      previous := levels[i];
      assert levels[i..][1..] == levels[i + 1..];
      i := i + 1;
    }
    return true;
  }

  /**
   A page is accepted exactly when its fences are closed and its headings form one tree; its headings
   then carry different anchors, the contents list those of the second and third level, and the
   page is named by its first heading.
   */
  method ParseDocument(tokens: seq<Token>) returns (r: Result<Document>)
    ensures r.Ok? <==>
              && (forall t | t in tokens :: t != Fence(true, false))
              && IsOutline(Levels(Titles(tokens)))
    ensures r.Ok? ==>
              var titles, doc := Titles(tokens), r.value;
              && Assigned(Bases(titles), doc.ids) && |doc.ids| == |titles|
              && doc.anchors == Elements(doc.ids) && doc.headings == Contents(titles, doc.ids)
              && titles != [] && doc.title == titles[0].text
  {
    FencesExact(tokens);
    var read := ReadTokens(tokens);
    if read.Refused? {
      return Refused;
    }
    var reading := read.value;
    LevelsExact(reading.levels);
    TextsCounted(Titles(tokens));
    if |reading.texts| != 1 {
      return Refused;
    }
    var ok := CheckLevels(reading.levels);
    if !ok {
      return Refused;
    }
    return Ok(Document(reading.texts[0], reading.headings, reading.anchors, reading.ids));
  }
}
