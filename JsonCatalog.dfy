/** The catalog resolver of the JSON library provider: one mutable catalog
    snapshot (`libraryGroups`) reloaded through the cache service on every
    query, and the search, resolution, latest-version and completion queries
    answered from it. */
module Json {
  import opened Wrappers
  import opened OrdinalText
  import opened Linq
  import opened Ranking

  /** The deferred version lister `SearchAsync` attaches to each hit
      (`DisplayInfosTask`): the group name that `GetLibraryVersionsAsync` is
      bound to. */
  datatype VersionLister = VersionsOf(groupName: string)

  /** One catalog entry as the JSON deserializer produces it. Only
      `displayInfos` is ever assigned after construction. */
  class Group {
    const displayName: string
    const description: string
    const version: string
    /** `None` when the catalog entry has no "files" array. */
    const files: Option<seq<string>>
    var displayInfos: Option<VersionLister>

    constructor (displayName: string, description: string, version: string, files: Option<seq<string>>)
      ensures this.displayName == displayName && this.description == description
      ensures this.version == version && this.files == files
      ensures displayInfos == None
    {
      this.displayName := displayName;
      this.description := description;
      this.version := version;
      this.files := files;
      displayInfos := None;
    }
  }

  /** What one call of `EnsureCatalogAsync` gets from the cache service and the
      JSON deserializer: the cache service threw, or its text was parsed into a
      group list (`None` when `ConvertToLibraryGroups` returned null). */
  datatype Fetch = Threw | Fetched(parsed: Option<seq<Group>>)

  datatype Asset = Asset(version: string, files: seq<string>, defaultFile: string)

  /** The resolved library; `files` maps each file to its "is default" flag. */
  datatype Library = Library(name: string, version: string, providerId: string, files: map<string, bool>)

  datatype CompletionItem = CompletionItem(displayText: string, insertionText: string, description: Option<string>)

  datatype SortOrder = AsSpecified | ByVersion

  datatype CompletionSet = CompletionSet(start: int, length: int, completions: seq<CompletionItem>, sortOrder: SortOrder)

  /** `InvalidLibraryException(libraryId, providerId)`, and the
      `ArgumentNullException` LINQ raises on a null sequence. */
  datatype CatalogError = InvalidLibrary(libraryId: string, providerId: string) | NullArgument

  /** `int.MaxValue`, the hit limit of name completion. */
  const MaxInt: int := 0x7fff_ffff

  const Separators: set<char> := {'-', '.'}

  /** The groups a fetch hands over, which a search may annotate. */
  function Parsed(f: Fetch): set<Group> {
    if f.Fetched? && f.parsed.Some? then set g | g in f.parsed.value else {}
  }

  /** `EnsureCatalogAsync` returns true. */
  predicate Loads(cancelled: bool, f: Fetch) {
    !cancelled && f.Fetched? && f.parsed.Some?
  }

  /** `_libraryGroups` after `EnsureCatalogAsync`. */
  function AfterEnsure(before: Option<seq<Group>>, cancelled: bool, f: Fetch): Option<seq<Group>> {
    if cancelled || f.Threw? then before else f.parsed
  }

  // ---------------------------------------------------------------- search

  /** `NormalizedGroupName`: strips a trailing "js" (any case), then any
      trailing '-' and '.'. */
  function NormalizedGroupName(name: string): (r: string)
    ensures |r| <= |name| && r == name[..|r|]
    ensures !EndsWithIgnoreCase(name, "js") ==> r == name
    ensures EndsWithIgnoreCase(name, "js") ==>
      && |r| <= |name| - 2
      && (|r| == 0 || r[|r| - 1] !in Separators)
      && forall k :: |r| <= k < |name| - 2 ==> name[k] in Separators
  {
    if EndsWithIgnoreCase(name, "js") then
      var r := TrimEnd(name[..|name| - 2], Separators);
      assert name[..|name| - 2][..|r|] == name[..|r|];
      r
    else name
  }

  /** The rank of a group for a search term, `None` when the group is not a
      hit: 50 when the normalized name equals the term, else
      `20 + (|term| - |normalized name|)` when the name starts with the term,
      else 1 when the name contains it. A group is a hit exactly when its
      name contains the term: a normalized name is a prefix of the name, so
      the first two tiers are occurrences at index 0. */
  function Score(displayName: string, term: string): (r: Option<int>)
    ensures r.Some? <==> ContainsIgnoreCase(displayName, term)
  {
    var clean := NormalizedGroupName(displayName);
    if EqualsIgnoreCase(clean, term) then
      EqualsIgnoreCaseLength(clean, term);
      assert MatchesAt(displayName, term, 0) by {
        assert displayName[0..|term|] == clean;
      }
      Some(50)
    else if StartsWithIgnoreCase(displayName, term) then
      assert MatchesAt(displayName, term, 0) by {
        assert displayName[0..|term|] == displayName[..|term|];
      }
      Some(20 + (|term| - |clean|))
    else if IndexOfIgnoreCase(displayName, term) > -1 then Some(1)
    else None
  }

  /** A name without the "js" ending is its own normalized name; when it is
      longer than the term, only the prefix and substring tiers apply. */
  lemma ScoreOfLongerPlainName(name: string, term: string)
    requires !EndsWithIgnoreCase(name, "js") && |term| < |name|
    ensures StartsWithIgnoreCase(name, term) ==> Score(name, term) == Some(20 + (|term| - |name|))
    ensures !StartsWithIgnoreCase(name, term) && ContainsIgnoreCase(name, term) ==> Score(name, term) == Some(1)
  {
  }

  /** The scores behind name completion of "test" on a catalog of
      "sampleLibrary", "test-library" and "test-library2": both prefix hits,
      the shorter name first, and no hit for "sampleLibrary". */
  lemma TestTermScores()
    ensures Score("test-library", "test") == Some(12)
    ensures Score("test-library2", "test") == Some(11)
    ensures Score("sampleLibrary", "test") == None
  {
    TestLibraryScore();
    TestLibrary2Score();
    SampleLibraryMisses();
  }

  lemma TestLibraryScore()
    ensures Score("test-library", "test") == Some(12)
  {
    EndsWithLastDiffers("test-library", "js");
    assert StartsWithIgnoreCase("test-library", "test") by {
      assert "test-library" == "test" + "-library";
    }
    ScoreOfLongerPlainName("test-library", "test");
  }

  lemma TestLibrary2Score()
    ensures Score("test-library2", "test") == Some(11)
  {
    EndsWithLastDiffers("test-library2", "js");
    assert StartsWithIgnoreCase("test-library2", "test") by {
      assert "test-library2" == "test" + "-library2";
    }
    ScoreOfLongerPlainName("test-library2", "test");
  }

  lemma SampleLibraryMisses()
    ensures Score("sampleLibrary", "test") == None
  {
    var name := "sampleLibrary";
    assert !ContainsIgnoreCase(name, "test") by {
      forall i | 0 <= i <= |name| ensures !MatchesAt(name, "test", i) {
        if i + 4 <= |name| {
          assert FoldString(name[i..i + 4])[0] == Fold(name[i]);
        }
      }
    }
  }

  /** Searching the three-library catalog for "test" ranks "test-library"
      (score 12) before "test-library2" (score 11) and leaves out
      "sampleLibrary". */
  lemma TestSearchOrder(sample: Group, test1: Group, test2: Group)
    requires sample.displayName == "sampleLibrary"
    requires test1.displayName == "test-library" && test2.displayName == "test-library2"
    ensures SortedSearch([sample, test1, test2], "test") == [test1, test2]
  {
    var rank := RankFor("test");
    TestTermScores();
    assert rank(sample) == None && rank(test1) == Some(12) && rank(test2) == Some(11);
    ScoredHitsOfMissThenTwo(sample, test1, test2, rank);
    RankedPairInOrder(12, test1, 11, test2);
  }

  /** The groups name completion of "test" lists on that catalog. */
  lemma TestNameHits(sample: Group, test1: Group, test2: Group)
    requires sample.displayName == "sampleLibrary"
    requires test1.displayName == "test-library" && test2.displayName == "test-library2"
    ensures NameHits("test", Fetched(Some([sample, test1, test2]))) == [test1, test2]
  {
    assert NamePart("test") == "test";
    TestSearchOrder(sample, test1, test2);
  }

  /** Name completion of "test" with the caret at 0 on that catalog, as its
      test expects: the whole value is replaced, and the two "test" libraries
      are listed, "test-library" first with its own version in the id. */
  lemma TestNameCompletion(c: JsonCatalog, catalog: seq<Group>, sample: Group, test1: Group, test2: Group)
    requires sample.displayName == "sampleLibrary"
    requires test1.displayName == "test-library" && test2.displayName == "test-library2"
    ensures var r := c.CompletionSpec("test", 0, catalog, Fetched(Some([sample, test1, test2])));
      && r.Ok? && r.value.start == 0 && r.value.length == 4 && r.value.sortOrder == AsSpecified
      && |r.value.completions| == 2
      && r.value.completions[0].displayText == "test-library"
      && r.value.completions[0].insertionText == c.namingScheme("test-library", test1.version)
      && r.value.completions[1].displayText == "test-library2"
  {
    assert NameMode("test", 0) by {
      assert NamePart("test") == "test";
    }
    TestNameHits(sample, test1, test2);
  }

  /** The prefix tier is not bounded below by the substring tier: a one-letter
      term that begins a long name scores less than one that only occurs
      inside a short name. */
  lemma PrefixHitCanRankBelowSubstringHit()
    ensures Score("abcdefghijklmnopqrstuvw", "a") == Some(-2)
    ensures Score("ba", "a") == Some(1)
  {
    LongNamePrefixScore();
    ShortNameInnerScore();
  }

  lemma LongNamePrefixScore()
    ensures Score("abcdefghijklmnopqrstuvw", "a") == Some(-2)
  {
    var long := "abcdefghijklmnopqrstuvw";
    EndsWithLastDiffers(long, "js");
    StartsWithFirst(long, 'a');
    ScoreOfLongerPlainName(long, "a");
  }

  lemma ShortNameInnerScore()
    ensures Score("ba", "a") == Some(1)
  {
    ShortNameIsPlain();
    ShortNameDoesNotStartWithTerm();
    ShortNameContainsTerm();
    ScoreOfLongerPlainName("ba", "a");
  }

  /** The facts about "ba" that place it in the substring tier for "a": no
      "js" ending, no prefix match, an occurrence at index 1. */
  lemma ShortNameIsPlain()
    ensures !EndsWithIgnoreCase("ba", "js")
  {
    var short := "ba";
    assert short[0..] == short;
    assert FoldString(short)[1] == 'a' != 's' == FoldString("js")[1];
  }

  lemma ShortNameDoesNotStartWithTerm()
    ensures !StartsWithIgnoreCase("ba", "a")
  {
    var short := "ba";
    assert FoldString(short[..1])[0] == 'b' != 'a' == FoldString("a")[0];
  }

  lemma ShortNameContainsTerm()
    ensures ContainsIgnoreCase("ba", "a")
  {
    var short := "ba";
    assert short[1..2] == "a";
    assert MatchesAt(short, "a", 1);
  }

  /** The ranking of one search term. */
  function RankFor(term: string): Group -> Option<int> {
    (g: Group) => Score(g.displayName, term)
  }

  /** `GetSortedSearchResult(term)` on a catalog: the hits, each as often as
      the catalog holds it, so never more groups than the catalog has. */
  function SortedSearch(groups: seq<Group>, term: string): (r: seq<Group>)
    ensures multiset(r) == multiset(Hits(groups, RankFor(term)))
    ensures |r| <= |groups|
  {
    var rank := RankFor(term);
    var r := Ranked(groups, rank);
    RankedPermutesHits(groups, rank);
    assert |r| == |multiset(r)| == |multiset(Hits(groups, rank))| == |Hits(groups, rank)|;
    r
  }

  /** A search returns exactly the groups whose name contains the term, each
      as often as the catalog holds it. */
  lemma SearchFindsMatches(groups: seq<Group>, term: string)
    ensures forall g :: g in SortedSearch(groups, term) ==> g in groups && ContainsIgnoreCase(g.displayName, term)
    ensures forall g :: g in groups && ContainsIgnoreCase(g.displayName, term) ==> g in SortedSearch(groups, term)
    ensures multiset(SortedSearch(groups, term)) == multiset(Hits(groups, RankFor(term)))
  {
    var rank := RankFor(term);
    var r := SortedSearch(groups, term);
    RankedPermutesHits(groups, rank);
    forall g | g in r ensures g in groups && ContainsIgnoreCase(g.displayName, term) {
      assert g in multiset(Hits(groups, rank));
      assert rank(g) == Score(g.displayName, term);
    }
    forall g | g in groups && ContainsIgnoreCase(g.displayName, term) ensures g in r {
      assert rank(g) == Score(g.displayName, term);
      assert g in multiset(Hits(groups, rank));
    }
  }

  /** Scores never increase along a search result. */
  lemma SearchScoresNonIncreasing(groups: seq<Group>, term: string)
    ensures forall i :: 0 <= i < |SortedSearch(groups, term)| ==> Score(SortedSearch(groups, term)[i].displayName, term).Some?
    ensures forall i, j :: 0 <= i < j < |SortedSearch(groups, term)| ==>
      Score(SortedSearch(groups, term)[i].displayName, term).value >= Score(SortedSearch(groups, term)[j].displayName, term).value
  {
    RankedNonIncreasing(groups, RankFor(term));
  }

  /** The order is stable: the groups that share a score appear in the result
      in catalog order. */
  lemma SearchIsStable(groups: seq<Group>, term: string, k: int)
    ensures WithRank(SortedSearch(groups, term), RankFor(term), k) == WithRank(groups, RankFor(term), k)
  {
    RankedIsStable(groups, RankFor(term), k);
  }

  /** What `SearchAsync` returns once the catalog is loaded: the catalog
      prefix for an empty term, the top of the ranking otherwise. */
  function SearchResult(groups: seq<Group>, term: string, maxHits: int): (r: seq<Group>)
    ensures |r| <= (if maxHits <= 0 then 0 else maxHits)
    ensures term == "" ==> r == groups[..if maxHits <= 0 then 0 else if maxHits < |groups| then maxHits else |groups|]
    ensures term != "" ==> r == Take(SortedSearch(groups, term), maxHits)
    ensures term != "" && maxHits >= |groups| ==> r == SortedSearch(groups, term)
  {
    if term == "" then Take(groups, maxHits) else Take(SortedSearch(groups, term), maxHits)
  }

  /** Every group a search returns is a catalog group; for a non-empty term
      its name contains the term, so a term that no name contains finds
      nothing. */
  lemma SearchResultMatches(groups: seq<Group>, term: string, maxHits: int)
    ensures forall g :: g in SearchResult(groups, term, maxHits) ==> g in groups
    ensures term != "" ==> forall g :: g in SearchResult(groups, term, maxHits) ==> ContainsIgnoreCase(g.displayName, term)
    ensures term != "" && (forall g :: g in groups ==> !ContainsIgnoreCase(g.displayName, term)) ==>
      SearchResult(groups, term, maxHits) == []
  {
    var r := SearchResult(groups, term, maxHits);
    if term == "" {
      assert forall g :: g in r ==> g in groups;
    } else {
      SearchFindsMatches(groups, term);
      assert forall g :: g in r ==> g in SortedSearch(groups, term);
    }
  }

  // ---------------------------------------------------------------- resolution

  /** `ConvertToAssets` on a loaded group list: one asset per group, in order,
      whose default file is the group's display name; null as soon as a group
      has no file list. */
  function AssetsOf(groups: seq<Group>): (r: Option<seq<Asset>>)
    ensures r.Some? <==> forall i :: 0 <= i < |groups| ==> groups[i].files.Some?
    ensures r.Some? ==> |r.value| == |groups|
    ensures r.Some? ==> forall i :: 0 <= i < |groups| ==>
      r.value[i] == Asset(groups[i].version, groups[i].files.value, groups[i].displayName)
  {
    if groups == [] then Some([])
    else if groups[0].files.None? then None
    else
      match AssetsOf(groups[1..])
      case None => None
      case Some(rest) => Some([Asset(groups[0].version, groups[0].files.value, groups[0].displayName)] + rest)
  }

  /** `assets.Select(a => a.Version)` */
  function Versions(assets: seq<Asset>): (r: seq<string>)
    ensures |r| == |assets| && forall i :: 0 <= i < |assets| ==> r[i] == assets[i].version
  {
    seq(|assets|, i requires 0 <= i < |assets| => assets[i].version)
  }

  predicate Distinct(s: seq<string>) {
    forall i, j :: 0 <= i < j < |s| ==> s[i] != s[j]
  }

  /** `files.ToDictionary(k => k, b => b == defaultFile)`: null when a file
      repeats (the dictionary throws); otherwise every file is a key, flagged
      true exactly when it is the default file. */
  function FileMap(files: seq<string>, defaultFile: string): (r: Option<map<string, bool>>)
    ensures r.Some? <==> Distinct(files)
    ensures r.Some? ==> r.value.Keys == set f | f in files
    ensures r.Some? ==> forall f :: f in r.value ==> (r.value[f] <==> f == defaultFile)
  {
    if files == [] then Some(map[])
    else
      var init := files[..|files| - 1];
      var last := files[|files| - 1];
      assert files == init + [last];
      match FileMap(init, defaultFile)
      case None => None
      case Some(m) =>
        if last in m then
          var i :| 0 <= i < |init| && init[i] == last;
          assert files[i] == files[|files| - 1];
          None
        else
          Some(m[last := last == defaultFile])
  }

  /** The body of `GetLibraryAsync` after its argument check, on the asset
      list `GetAssetsAsync` produced; `None` where the source throws. */
  function ResolveLibrary(assets: Option<seq<Asset>>, name: string, version: string, providerId: string): (r: Option<Library>)
    ensures r.Some? ==>
      && assets.Some?
      && r.value.name == name && r.value.version == version && r.value.providerId == providerId
      && exists i :: 0 <= i < |assets.value| && assets.value[i].version == version
           && (forall j :: 0 <= j < i ==> assets.value[j].version != version)
           && r.value.files.Keys == (set f | f in assets.value[i].files)
           && forall f :: f in r.value.files ==> (r.value.files[f] <==> f == assets.value[i].defaultFile)
    ensures r.None? <==>
      || assets.None?
      || (forall i :: 0 <= i < |assets.value| ==> assets.value[i].version != version)
      || (assets.Some? && exists i :: (0 <= i < |assets.value| && assets.value[i].version == version
           && (forall j :: 0 <= j < i ==> assets.value[j].version != version)
           && !Distinct(assets.value[i].files)))
  {
    if assets.None? then None
    else
      match FirstOrDefault(assets.value, (a: Asset) => a.version == version)
      case None => None
      case Some(asset) =>
        match FileMap(asset.files, asset.defaultFile)
        case None => None
        case Some(m) => Some(Library(name, version, providerId, m))
  }

  /** `g => g.DisplayName == name`: exact, case-sensitive name match. */
  function Named(name: string): Group -> bool {
    (g: Group) => g.displayName == name
  }

  /** The lookup of `GetLatestVersion` without pre-releases: the declared
      version of the first group with exactly this name, or null when there is
      none or its version is empty. */
  function LatestOf(groups: seq<Group>, name: string): (r: Option<string>)
    ensures r.Some? ==> r.value != "" && exists i :: (0 <= i < |groups| && groups[i].displayName == name
      && groups[i].version == r.value && forall j :: 0 <= j < i ==> groups[j].displayName != name)
    ensures (forall i :: 0 <= i < |groups| ==> groups[i].displayName != name) ==> r.None?
    ensures forall i ::
      (0 <= i < |groups| && groups[i].displayName == name && forall j :: 0 <= j < i ==> groups[j].displayName != name) ==>
        r == (if groups[i].version == "" then None else Some(groups[i].version))
  {
    match FirstOrDefault(groups, Named(name))
    case None => None
    case Some(g) => if g.version == "" then None else Some(g.version)
  }

  // ---------------------------------------------------------------- completion

  /** The library-name part of a completion value: the text before its first
      '@', or all of it. */
  function NamePart(value: string): (r: string)
    ensures |r| <= |value| && r == value[..|r|] && '@' !in r
    ensures |r| < |value| ==> value[|r|] == '@'
  {
    var at := IndexOfChar(value, '@');
    if at > -1 then value[..at] else value
  }

  /** The caret is in the name part: there is no '@', or the caret is not
      past it. */
  predicate NameMode(value: string, caret: int)
    ensures NameMode(value, caret) <==> NamePart(value) == value || caret <= |NamePart(value)|
  {
    var at := IndexOfChar(value, '@');
    at == -1 || caret <= at
  }

  /** The groups name completion lists: a search for the name part with no hit
      limit, or nothing when that search's own catalog load fails. */
  function NameHits(value: string, second: Fetch): seq<Group> {
    if Loads(false, second) then SearchResult(second.parsed.value, NamePart(value), MaxInt) else []
  }

  /** Each name completion is a group of the reloaded catalog whose name
      contains the name part, ignoring case; an empty name part lists the
      catalog in its own order. */
  lemma NameHitsContainName(value: string, second: Fetch)
    ensures forall g :: g in NameHits(value, second) ==> g in Parsed(second)
    ensures NamePart(value) != "" ==>
      forall g :: g in NameHits(value, second) ==> ContainsIgnoreCase(g.displayName, NamePart(value))
    ensures NamePart(value) == "" && Loads(false, second) && |second.parsed.value| <= MaxInt ==>
      NameHits(value, second) == second.parsed.value
    ensures NamePart(value) != "" && Loads(false, second) && |second.parsed.value| <= MaxInt ==>
      forall g :: g in second.parsed.value && ContainsIgnoreCase(g.displayName, NamePart(value)) ==>
        g in NameHits(value, second)
  {
    if Loads(false, second) {
      SearchResultMatches(second.parsed.value, NamePart(value), MaxInt);
      if NamePart(value) != "" && |second.parsed.value| <= MaxInt {
        SearchFindsMatches(second.parsed.value, NamePart(value));
      }
    }
  }

  /** The loop of `SearchAsync` that gives each hit its `DisplayInfosTask`,
      bound to the hit's own name; no other group is touched. */
  method AttachVersionListers(results: seq<Group>)
    modifies set g | g in results
    ensures forall g :: g in results ==> g.displayInfos == Some(VersionsOf(g.displayName))
  {
    for i := 0 to |results|
      invariant forall j :: 0 <= j < i ==> results[j].displayInfos == Some(VersionsOf(results[j].displayName))
    {
      results[i].displayInfos := Some(VersionsOf(results[i].displayName));
    }
  }

  // ---------------------------------------------------------------- the catalog

  class JsonCatalog {
    const providerId: string
    /** `ILibraryNamingScheme.GetLibraryId(name, version)` */
    const namingScheme: (string, string) -> string
    var libraryGroups: Option<seq<Group>>

    constructor (providerId: string, namingScheme: (string, string) -> string)
      ensures this.providerId == providerId && this.namingScheme == namingScheme
      ensures libraryGroups == None
    {
      this.providerId := providerId;
      this.namingScheme := namingScheme;
      libraryGroups := None;
    }

    /** `EnsureCatalogAsync`: reloads the catalog on every call. */
    method EnsureCatalog(cancelled: bool, fetch: Fetch) returns (ok: bool)
      modifies this
      ensures cancelled ==> !ok && libraryGroups == old(libraryGroups)
      ensures !cancelled && fetch.Threw? ==> !ok && libraryGroups == old(libraryGroups)
      ensures !cancelled && fetch.Fetched? ==> libraryGroups == fetch.parsed && (ok <==> fetch.parsed.Some?)
    {
      if cancelled {
        return false;
      }
      match fetch
      case Threw =>
        ok := false;
      case Fetched(parsed) =>
        libraryGroups := parsed;
        ok := libraryGroups.Some?;
    }

    /** One pass of `GetSortedSearchResult`'s loop: the group's entry in the
        scored list, empty for a miss. */
    static method ScoredEntry(group: Group, term: string) returns (entry: seq<(int, Group)>)
      ensures entry == ScoredHits([group], RankFor(term))
    {
      var cleanName := NormalizedGroupName(group.displayName);
      entry := [];
      ghost var score := Score(group.displayName, term);
      if EqualsIgnoreCase(cleanName, term) {
        entry := [(50, group)];
        assert score == Some(50);
      } else if StartsWithIgnoreCase(group.displayName, term) {
        entry := [(20 + (|term| - |cleanName|), group)];
        assert score == Some(20 + (|term| - |cleanName|));
      } else if IndexOfIgnoreCase(group.displayName, term) > -1 {
        entry := [(1, group)];
        assert score == Some(1);
      } else {
        assert score == None;
      }
      assert RankFor(term)(group) == score;
      ScoredHitsSingle(group, RankFor(term));
    }

    /** `GetSortedSearchResult`: scores each group, drops the misses, and
        orders by descending score. */
    method SortedSearchResult(term: string) returns (r: seq<Group>)
      requires libraryGroups.Some?
      ensures r == SortedSearch(libraryGroups.value, term)
    {
      var groups := libraryGroups.value;
      var list: seq<(int, Group)> := [];
      for i := 0 to |groups|
        invariant list == ScoredHits(groups[..i], RankFor(term))
      {
        var group := groups[i];
        assert groups[..i + 1] == groups[..i] + [group];
        var entry := ScoredEntry(group, term);
        list := list + entry;
        ScoredHitsAppend(groups[..i], group, RankFor(term));
      }
      assert groups[..|groups|] == groups;
      r := Items(OrderByDescending(list));
    }

    /** `SearchAsync` */
    method Search(term: string, maxHits: int, cancelled: bool, fetch: Fetch) returns (r: seq<Group>)
      modifies this, Parsed(fetch)
      ensures libraryGroups == AfterEnsure(old(libraryGroups), cancelled, fetch)
      ensures r == if Loads(cancelled, fetch) then SearchResult(fetch.parsed.value, term, maxHits) else []
      ensures forall g :: g in r ==> g.displayInfos == Some(VersionsOf(g.displayName))
      ensures forall g :: g in Parsed(fetch) && g !in r ==> g.displayInfos == old(g.displayInfos)
    {
      var ok := EnsureCatalog(cancelled, fetch);
      if !ok {
        return [];
      }
      ghost var groups := fetch.parsed.value;
      assert libraryGroups == Some(groups);
      var results: seq<Group>;
      if term == "" {
        results := Take(libraryGroups.value, maxHits);
      } else {
        var sorted := SortedSearchResult(term);
        results := Take(sorted, maxHits);
      }
      assert results == SearchResult(groups, term, maxHits);
      SearchResultMatches(groups, term, maxHits);
      forall g | g in results ensures g in Parsed(fetch) {
        assert g in groups;
      }
      AttachVersionListers(results);
      r := results;
    }

    /** `GetAssetsAsync`: the group name is not used; the assets are those of
        the whole catalog. */
    method GetAssets(groupName: string, fetch: Fetch) returns (r: Option<seq<Asset>>)
      modifies this
      ensures libraryGroups == AfterEnsure(old(libraryGroups), false, fetch)
      ensures r == if Loads(false, fetch) then AssetsOf(fetch.parsed.value) else None
    {
      var ok := EnsureCatalog(false, fetch);
      if !ok {
        return None;
      }
      r := ConvertToAssets(libraryGroups);
    }

    /** `GetLibraryVersionsAsync` */
    method GetLibraryVersions(groupName: string, fetch: Fetch) returns (r: Option<seq<string>>)
      modifies this
      ensures libraryGroups == AfterEnsure(old(libraryGroups), false, fetch)
      ensures Loads(false, fetch) && AssetsOf(fetch.parsed.value).Some? ==>
        r == Some(Versions(AssetsOf(fetch.parsed.value).value))
      ensures !(Loads(false, fetch) && AssetsOf(fetch.parsed.value).Some?) ==> r == None
    {
      var assets := GetAssets(groupName, fetch);
      if assets.None? {
        return None;
      }
      r := Some(Versions(assets.value));
    }

    /** `ConvertToAssets(IEnumerable<JsonLibraryGroup>)` */
    method ConvertToAssets(data: Option<seq<Group>>) returns (r: Option<seq<Asset>>)
      ensures r == if data.None? then None else AssetsOf(data.value)
    {
      if data.None? {
        return None;
      }
      var groups := data.value;
      var output: seq<Asset> := [];
      for i := 0 to |groups|
        invariant |output| == i
        invariant forall j :: 0 <= j < i ==> groups[j].files.Some?
        invariant forall j :: 0 <= j < i ==> output[j] == Asset(groups[j].version, groups[j].files.value, groups[j].displayName)
      {
        var lib := groups[i];
        if lib.files.None? {
          assert AssetsOf(groups).None?;
          return None;
        }
        output := output + [Asset(lib.version, lib.files.value, lib.displayName)];
      }
      assert AssetsOf(groups).Some? && AssetsOf(groups).value == output;
      r := Some(output);
    }

    /** `GetLibraryAsync`; the cancellation token does not reach the catalog
        load, which runs uncancelled. */
    method GetLibrary(name: string, version: string, fetch: Fetch) returns (r: Result<Library, CatalogError>)
      modifies this
      ensures r.Err? ==> r.error == InvalidLibrary(namingScheme(name, version), providerId)
      ensures name == "" || version == "" ==> r.Err? && libraryGroups == old(libraryGroups)
      ensures name != "" && version != "" ==>
        && libraryGroups == AfterEnsure(old(libraryGroups), false, fetch)
        && var assets := if Loads(false, fetch) then AssetsOf(fetch.parsed.value) else None;
           match ResolveLibrary(assets, name, version, providerId)
           case Some(lib) => r == Ok(lib)
           case None => r.Err?
    {
      var libraryId := namingScheme(name, version);
      if name == "" || version == "" {
        return Err(InvalidLibrary(libraryId, providerId));
      }
      var assets := GetAssets(name, fetch);
      if assets.None? {
        // FirstOrDefault on a null sequence throws; the catch-all rethrows.
        return Err(InvalidLibrary(libraryId, providerId));
      }
      var asset := FirstOrDefault(assets.value, (a: Asset) => a.version == version);
      if asset.None? {
        return Err(InvalidLibrary(libraryId, providerId));
      }
      var files := FileMap(asset.value.files, asset.value.defaultFile);
      if files.None? {
        // ToDictionary throws on a repeated file; the catch-all rethrows.
        return Err(InvalidLibrary(libraryId, providerId));
      }
      r := Ok(Library(name, version, providerId, files.value));
    }

    /** `GetLatestVersion` with `includePreReleases == false`. */
    method GetLatestVersion(name: string, cancelled: bool, fetch: Fetch) returns (r: Option<string>)
      modifies this
      ensures name == "" ==> r == None && libraryGroups == old(libraryGroups)
      ensures name != "" ==> libraryGroups == AfterEnsure(old(libraryGroups), cancelled, fetch)
      ensures name != "" ==> r == if Loads(cancelled, fetch) then LatestOf(fetch.parsed.value, name) else None
    {
      if name == "" {
        return None;
      }
      var ok := EnsureCatalog(cancelled, fetch);
      if !ok {
        return None;
      }
      var group := FirstOrDefault(libraryGroups.value, Named(name));
      if group.None? {
        return None;
      }
      var first := group.value.version;
      if first != "" {
        return Some(first);
      }
      r := None;
    }

    /** One name completion per search hit. */
    function NameCompletions(hits: seq<Group>): (r: seq<CompletionItem>)
      ensures |r| == |hits|
      ensures forall i :: 0 <= i < |hits| ==>
        && r[i].displayText == hits[i].displayName
        && r[i].insertionText == namingScheme(hits[i].displayName, hits[i].version)
        && r[i].description == Some(hits[i].description)
    {
      seq(|hits|, i requires 0 <= i < |hits| =>
        CompletionItem(hits[i].displayName, namingScheme(hits[i].displayName, hits[i].version), Some(hits[i].description)))
    }

    /** One version completion per asset, duplicates included. */
    function VersionCompletions(name: string, assets: seq<Asset>): (r: seq<CompletionItem>)
      ensures |r| == |assets|
      ensures forall i :: 0 <= i < |assets| ==>
        && r[i].displayText == assets[i].version
        && r[i].insertionText == namingScheme(name, assets[i].version)
        && r[i].description.None?
    {
      seq(|assets|, i requires 0 <= i < |assets| =>
        CompletionItem(assets[i].version, namingScheme(name, assets[i].version), None))
    }

    /** The completion set `GetLibraryCompletionSetAsync` builds once its own
        catalog load succeeded with `catalog`; `second` is what the nested
        load (of the search, or of the asset listing) gets. With the caret in
        the name part it lists the search hits for that name; with the caret
        after the '@' of a catalogued name it lists the versions, replacing
        the text after the '@'. */
    function CompletionSpec(value: string, caret: int, catalog: seq<Group>, second: Fetch): (r: Result<CompletionSet, CatalogError>)
      ensures r.Ok? ==> 0 <= r.value.start <= |value| && r.value.start + r.value.length == |value|
      ensures r.Ok? ==> (r.value.sortOrder == AsSpecified <==> NameMode(value, caret))
      ensures r.Ok? && r.value.sortOrder == AsSpecified ==>
        r.value.start == 0 && r.value.completions == NameCompletions(NameHits(value, second))
      ensures r.Ok? && r.value.start != 0 ==>
        && r.value.sortOrder == ByVersion
        && r.value.start == |NamePart(value)| + 1
        && exists g :: g in catalog && g.displayName == NamePart(value)
      ensures r.Ok? && r.value.sortOrder == ByVersion && r.value.start != 0 ==>
        Loads(false, second) && AssetsOf(second.parsed.value).Some? &&
        r.value.completions == VersionCompletions(NamePart(value), AssetsOf(second.parsed.value).value)
      ensures r.Ok? && r.value.sortOrder == ByVersion && r.value.start == 0 ==>
        r.value.completions == [] && forall g :: g in catalog ==> g.displayName != NamePart(value)
      ensures r.Err? <==>
        && !NameMode(value, caret)
        && (exists g :: g in catalog && g.displayName == NamePart(value))
        && !(Loads(false, second) && AssetsOf(second.parsed.value).Some?)
      ensures r.Err? ==> r.error == NullArgument
    {
      var at := IndexOfChar(value, '@');
      var name := NamePart(value);
      if at == -1 || caret <= at then
        Ok(CompletionSet(0, |value|, NameCompletions(NameHits(value, second)), AsSpecified))
      else
        match FirstOrDefault(catalog, Named(name))
        case None => Ok(CompletionSet(0, |value|, [], ByVersion))
        case Some(group) =>
          var assets := if Loads(false, second) then AssetsOf(second.parsed.value) else None;
          if assets.None? then Err(NullArgument)
          else Ok(CompletionSet(at + 1, |value| - (at + 1), VersionCompletions(name, assets.value), ByVersion))
    }

    /** The loop of `GetLibraryCompletionSetAsync` over the search hits. */
    method NameCompletionList(result: seq<Group>) returns (completions: seq<CompletionItem>)
      ensures completions == NameCompletions(result)
    {
      completions := [];
      for i := 0 to |result|
        invariant completions == NameCompletions(result)[..i]
      {
        var group := result[i];
        completions := completions + [CompletionItem(group.displayName, namingScheme(group.displayName, group.version), Some(group.description))];
      }
    }

    /** The loop of `GetLibraryCompletionSetAsync` over the asset versions. */
    method VersionCompletionList(name: string, assets: seq<Asset>) returns (completions: seq<CompletionItem>)
      ensures completions == VersionCompletions(name, assets)
    {
      var versions := Versions(assets);
      completions := [];
      for i := 0 to |versions|
        invariant completions == VersionCompletions(name, assets)[..i]
      {
        completions := completions + [CompletionItem(versions[i], namingScheme(name, versions[i]), None)];
      }
    }

    /** The name branch of `GetLibraryCompletionSetAsync`: a search for the
        name with no hit limit, one completion per hit. */
    method CompleteName(name: string, second: Fetch) returns (completions: seq<CompletionItem>)
      modifies this, Parsed(second)
      ensures libraryGroups == AfterEnsure(old(libraryGroups), false, second)
      ensures completions == NameCompletions(if Loads(false, second) then SearchResult(second.parsed.value, name, MaxInt) else [])
      ensures Loads(false, second) ==> forall g :: g in SearchResult(second.parsed.value, name, MaxInt) ==>
        g.displayInfos == Some(VersionsOf(g.displayName))
      ensures forall g :: g in Parsed(second) && !(Loads(false, second) && g in SearchResult(second.parsed.value, name, MaxInt)) ==>
        g.displayInfos == old(g.displayInfos)
    {
      var result := Search(name, MaxInt, false, second);
      completions := NameCompletionList(result);
    }

    /** The version branch of `GetLibraryCompletionSetAsync` once the name is
        found: one completion per asset of the reloaded catalog, or `None`
        when the asset list is null. */
    method CompleteVersion(name: string, second: Fetch) returns (completions: Option<seq<CompletionItem>>)
      modifies this
      ensures libraryGroups == AfterEnsure(old(libraryGroups), false, second)
      ensures completions ==
        if Loads(false, second) && AssetsOf(second.parsed.value).Some?
        then Some(VersionCompletions(name, AssetsOf(second.parsed.value).value))
        else None
    {
      var assets := GetAssets(name, second);
      if assets.None? {
        return None;
      }
      var list := VersionCompletionList(name, assets.value);
      completions := Some(list);
    }

    /** `GetLibraryCompletionSetAsync`; `None` is the default (empty)
        completion set returned when the catalog does not load. */
    method GetLibraryCompletionSet(value: string, caret: int, first: Fetch, second: Fetch)
      returns (r: Result<Option<CompletionSet>, CatalogError>)
      modifies this, Parsed(second)
      ensures !Loads(false, first) ==> r == Ok(None) && libraryGroups == AfterEnsure(old(libraryGroups), false, first)
      ensures Loads(false, first) ==>
        r == (match CompletionSpec(value, caret, first.parsed.value, second)
              case Ok(cs) => Ok(Some(cs))
              case Err(e) => Err(e))
      ensures Loads(false, first) ==>
        libraryGroups == if NameMode(value, caret) || exists g :: g in first.parsed.value && g.displayName == NamePart(value)
                         then AfterEnsure(first.parsed, false, second) else first.parsed
      ensures Loads(false, first) && NameMode(value, caret) ==>
        forall g :: g in NameHits(value, second) ==> g.displayInfos == Some(VersionsOf(g.displayName))
      ensures forall g :: g in Parsed(second) && !(Loads(false, first) && NameMode(value, caret) && g in NameHits(value, second)) ==>
        g.displayInfos == old(g.displayInfos)
    {
      var ok := EnsureCatalog(false, first);
      if !ok {
        return Ok(None);
      }
      var catalog := libraryGroups.value;
      ghost var spec := CompletionSpec(value, caret, catalog, second);
      var start, length := 0, |value|;
      var at := IndexOfChar(value, '@');
      var name := if at > -1 then value[..at] else value;
      assert name == NamePart(value);
      var completions: seq<CompletionItem> := [];
      var sortOrder: SortOrder;
      if at == -1 || caret <= at {
        completions := CompleteName(name, second);
        assert completions == NameCompletions(NameHits(value, second));
        sortOrder := AsSpecified;
        assert NameMode(value, caret);
        assert spec == Ok(CompletionSet(start, length, completions, sortOrder));
      } else {
        var group := FirstOrDefault(catalog, Named(name));
        if group.Some? {
          start := at + 1;
          length := |value| - start;
          var versions := CompleteVersion(name, second);
          if versions.None? {
            // Select on a null sequence throws.
            assert spec == Err(NullArgument);
            return Err(NullArgument);
          }
          completions := versions.value;
        }
        sortOrder := ByVersion;
        assert !NameMode(value, caret);
        assert spec == Ok(CompletionSet(start, length, completions, sortOrder));
      }
      r := Ok(Some(CompletionSet(start, length, completions, sortOrder)));
    }
  }
}
