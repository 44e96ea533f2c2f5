/** The language profile of the `user-languages` route: the user's
    non-fork repositories are ranked by stars, the ten highest are sampled,
    their language byte counts are added up per language, and every
    language is reported as its share of all sampled bytes, in percent to
    two decimals, from the largest share down. The repository listing and
    each repository's language map come in as values. */
module UserLanguages {
  import opened Records
  import opened Seqs
  import opened Numeric

  /** One `[lang, bytes]` entry of a repository's language map. GitHub
      reports byte counts as non-negative whole numbers. */
  datatype LangBytes = LangBytes(lang: string, bytes: nat)

  /** A repository of the listing: `fork`, `stargazers_count`, and the
      entries of the map its `languages_url` returns, in the map's order. */
  datatype RepoSummary = RepoSummary(fork: bool, stars: int, languages: seq<LangBytes>)

  /** The parsed body of the repository listing: an array, or anything else. */
  datatype Listing = NotAnArray | Repos(repos: seq<RepoSummary>)

  /** The route's JSON answer: an error with its HTTP status, or the languages. */
  datatype Response = Failure(status: int, error: string) | Languages(languages: seq<LangShare>)

  const SampleSize: nat := 10

  function NotFork(repo: RepoSummary): bool
  {
    !repo.fork
  }

  /** The sort key of `(a, b) => b.stargazers_count - a.stargazers_count`. */
  function Stars(repo: RepoSummary): real
  {
    repo.stars as real
  }

  // ---------------------------------------------------------------- sampling

  /** `nonForked.sort(by stars, highest first).slice(0, 10)` */
  function TopRepos(repos: seq<RepoSummary>): (r: seq<RepoSummary>)
    ensures |r| == if |Filter(repos, NotFork)| < SampleSize then |Filter(repos, NotFork)| else SampleSize
    ensures forall i :: 0 <= i < |r| ==> !r[i].fork && r[i] in repos
    ensures SortedDesc(r, Stars)
  {
    var sorted := SortDesc(Filter(repos, NotFork), Stars);
    var r := Take(sorted, SampleSize);
    forall i | 0 <= i < |r| ensures !r[i].fork && r[i] in repos {
      assert r[i] in multiset(sorted);
      assert r[i] in Filter(repos, NotFork);
    }
    r
  }

  /** The non-fork repositories the sample leaves out, in sorted order. */
  function Unsampled(repos: seq<RepoSummary>): seq<RepoSummary>
  {
    var sorted := SortDesc(Filter(repos, NotFork), Stars);
    sorted[|Take(sorted, SampleSize)|..]
  }

  /** The sample is the highest-starred part of the non-fork repositories:
      they split into the sample and the rest, and no repository of the
      rest has more stars than any sampled one. */
  lemma TopReposAreHighest(repos: seq<RepoSummary>)
    ensures multiset(TopRepos(repos)) + multiset(Unsampled(repos)) == multiset(Filter(repos, NotFork))
    ensures forall i, j :: 0 <= i < |TopRepos(repos)| && 0 <= j < |Unsampled(repos)| ==>
              TopRepos(repos)[i].stars >= Unsampled(repos)[j].stars
  {
    var sorted := SortDesc(Filter(repos, NotFork), Stars);
    var n := |Take(sorted, SampleSize)|;
    assert TopRepos(repos) == sorted[..n];
    assert Unsampled(repos) == sorted[n..];
    SortedSplit(sorted, n);
  }

  /** A list sorted by stars, cut in two: no repository of the second part
      has more stars than any of the first. */
  lemma SortedSplit(sorted: seq<RepoSummary>, n: nat)
    requires SortedDesc(sorted, Stars) && n <= |sorted|
    ensures multiset(sorted[..n]) + multiset(sorted[n..]) == multiset(sorted)
    ensures forall i, j :: 0 <= i < n && 0 <= j < |sorted| - n ==> sorted[..n][i].stars >= sorted[n..][j].stars
  {
    assert sorted == sorted[..n] + sorted[n..];
    forall i, j | 0 <= i < n && 0 <= j < |sorted| - n ensures sorted[..n][i].stars >= sorted[n..][j].stars {
      assert Stars(sorted[i]) >= Stars(sorted[n + j]);
    }
  }

  // ---------------------------------------------------------------- accumulation

  /** Every language entry of the sampled repositories, repository by repository. */
  function Entries(repos: seq<RepoSummary>): seq<LangBytes>
  {
    if repos == [] then [] else Entries(repos[..|repos| - 1]) + repos[|repos| - 1].languages
  }

  lemma EntriesSnoc(repos: seq<RepoSummary>, repo: RepoSummary)
    ensures Entries(repos + [repo]) == Entries(repos) + repo.languages
  {
    assert (repos + [repo])[..|repos|] == repos;
  }

  /** The language name of every entry, in order. */
  function LangsOf(es: seq<LangBytes>): (r: seq<string>)
    ensures |r| == |es|
    ensures forall i :: 0 <= i < |es| ==> r[i] == es[i].lang
  {
    seq(|es|, i requires 0 <= i < |es| => es[i].lang)
  }

  /** `globalLanguageBytes` after the entries `es`, each one doing
      `m[lang] = (m[lang] || 0) + bytes`. */
  function ByteMap(es: seq<LangBytes>): map<string, nat>
  {
    if es == [] then map[] else AddBytes(ByteMap(es[..|es| - 1]), es[|es| - 1])
  }

  /** One entry added into the map: `m[lang] = (m[lang] || 0) + bytes`. */
  function AddBytes(m: map<string, nat>, e: LangBytes): (r: map<string, nat>)
    ensures forall lang :: lang in r <==> lang in m || lang == e.lang
    ensures r[e.lang] == (if e.lang in m then m[e.lang] else 0) + e.bytes
    ensures forall lang :: lang in m && lang != e.lang ==> r[lang] == m[lang]
  {
    m[e.lang := (if e.lang in m then m[e.lang] else 0) + e.bytes]
  }

  lemma ByteMapSnoc(es: seq<LangBytes>, e: LangBytes)
    ensures ByteMap(es + [e]) == AddBytes(ByteMap(es), e)
    ensures LangsOf(es + [e]) == LangsOf(es) + [e.lang]
  {
    assert (es + [e])[..|es|] == es;
  }

  /** The key order of `globalLanguageBytes`: languages in first-seen order. */
  function KeyOrder(es: seq<LangBytes>): seq<string>
  {
    DistinctInOrder(LangsOf(es))
  }

  lemma KeyOrderSnoc(es: seq<LangBytes>, e: LangBytes)
    ensures KeyOrder(es + [e]) == KeyOrder(es) + (if e.lang in LangsOf(es) then [] else [e.lang])
  {
    ByteMapSnoc(es, e);
    var ls := LangsOf(es + [e]);
    assert ls[..|ls| - 1] == LangsOf(es);
  }

  /** The bytes of the entries for language `lang`, added up. */
  function BytesFor(es: seq<LangBytes>, lang: string): nat
  {
    if es == [] then 0
    else BytesFor(es[..|es| - 1], lang) + (if es[|es| - 1].lang == lang then es[|es| - 1].bytes else 0)
  }

  /** All bytes of the entries, added up. */
  function AllBytes(es: seq<LangBytes>): nat
  {
    if es == [] then 0 else AllBytes(es[..|es| - 1]) + es[|es| - 1].bytes
  }

  /** The accumulated map has a key for exactly the languages that occur. */
  lemma {:induction false} ByteMapDomain(es: seq<LangBytes>)
    ensures forall lang :: lang in ByteMap(es) <==> lang in LangsOf(es)
  {
    if es != [] {
      var init := es[..|es| - 1];
      var e := es[|es| - 1];
      assert es == init + [e];
      ByteMapDomain(init);
      ByteMapSnoc(init, e);
    }
  }

  /** A language that does not occur has no bytes. */
  lemma {:induction false} BytesForAbsent(es: seq<LangBytes>, lang: string)
    requires lang !in LangsOf(es)
    ensures BytesFor(es, lang) == 0
  {
    if es != [] {
      var init := es[..|es| - 1];
      assert es == init + [es[|es| - 1]];
      ByteMapSnoc(init, es[|es| - 1]);
      BytesForAbsent(init, lang);
    }
  }

  /** The accumulated map holds for each language the sum of its byte counts. */
  lemma {:induction false} ByteMapValue(es: seq<LangBytes>, lang: string)
    requires lang in LangsOf(es)
    ensures lang in ByteMap(es) && ByteMap(es)[lang] == BytesFor(es, lang)
  {
    var init := es[..|es| - 1];
    var e := es[|es| - 1];
    assert es == init + [e];
    ByteMapSnoc(init, e);
    assert lang in ByteMap(init) <==> lang in LangsOf(init) by {
      ByteMapDomain(init);
    }
    if lang in LangsOf(init) {
      ByteMapValue(init, lang);
    } else {
      BytesForAbsent(init, lang);
    }
  }

  /** The outer loop that fills `globalLanguageBytes`, repository by
      repository, keeping the map's key order in `order`. */
  method AccumulateBytes(topRepos: seq<RepoSummary>) returns (bytes: map<string, nat>, order: seq<string>)
    ensures bytes == ByteMap(Entries(topRepos))
    ensures order == KeyOrder(Entries(topRepos))
  {
    bytes := map[];
    order := [];
    for i := 0 to |topRepos|
      invariant bytes == ByteMap(Entries(topRepos[..i]))
      invariant order == KeyOrder(Entries(topRepos[..i]))
    {
      bytes, order := AddLanguages(bytes, order, Entries(topRepos[..i]), topRepos[i].languages);
      assert topRepos[..i + 1] == topRepos[..i] + [topRepos[i]];
      EntriesSnoc(topRepos[..i], topRepos[i]);
    }
    assert topRepos[..|topRepos|] == topRepos;
  }

  /** One entry more: the map gets `AddBytes`, and the key order grows
      exactly when the language is new. */
  lemma AddStep(prev: seq<LangBytes>, e: LangBytes, bytes: map<string, nat>, order: seq<string>)
    requires bytes == ByteMap(prev) && order == KeyOrder(prev)
    ensures AddBytes(bytes, e) == ByteMap(prev + [e])
    ensures (if e.lang in bytes then order else order + [e.lang]) == KeyOrder(prev + [e])
  {
    ByteMapSnoc(prev, e);
    assert e.lang in bytes <==> e.lang in LangsOf(prev) by {
      ByteMapDomain(prev);
    }
    KeyOrderSnoc(prev, e);
    if e.lang in bytes {
      assert order + [] == order;
    }
  }

  /** The step of the inner loop, stated on the entries of `languages` added so far. */
  lemma LanguageStep(seen: seq<LangBytes>, languages: seq<LangBytes>, j: nat, bytes: map<string, nat>, order: seq<string>)
    requires j < |languages|
    requires bytes == ByteMap(seen + languages[..j]) && order == KeyOrder(seen + languages[..j])
    ensures AddBytes(bytes, languages[j]) == ByteMap(seen + languages[..j + 1])
    ensures (if languages[j].lang in bytes then order else order + [languages[j].lang])
            == KeyOrder(seen + languages[..j + 1])
  {
    assert seen + languages[..j + 1] == (seen + languages[..j]) + [languages[j]] by {
      assert languages[..j + 1] == languages[..j] + [languages[j]];
    }
    AddStep(seen + languages[..j], languages[j], bytes, order);
  }

  /** The inner loop over one repository's language map; `seen` are the entries added before. */
  method AddLanguages(bytes0: map<string, nat>, order0: seq<string>, ghost seen: seq<LangBytes>, languages: seq<LangBytes>)
    returns (bytes: map<string, nat>, order: seq<string>)
    requires bytes0 == ByteMap(seen) && order0 == KeyOrder(seen)
    ensures bytes == ByteMap(seen + languages) && order == KeyOrder(seen + languages)
  {
    bytes, order := bytes0, order0;
    assert seen + languages[..0] == seen;
    for j := 0 to |languages|
      invariant bytes == ByteMap(seen + languages[..j])
      invariant order == KeyOrder(seen + languages[..j])
    {
      var e := languages[j];
      LanguageStep(seen, languages, j, bytes, order);
      if e.lang !in bytes {
        order := order + [e.lang];
      }
      bytes := AddBytes(bytes, e);
    }
    assert languages[..|languages|] == languages;
  }

  // ---------------------------------------------------------------- total

  /** `Object.values(m).reduce((a, b) => a + b, 0)` over the keys `ks` in order. */
  function TotalOver(m: map<string, nat>, ks: seq<string>): nat
    requires forall i :: 0 <= i < |ks| ==> ks[i] in m
  {
    if ks == [] then 0 else TotalOver(m, ks[..|ks| - 1]) + m[ks[|ks| - 1]]
  }

  /** Changing the value of a key the list does not hold leaves the total alone. */
  lemma {:induction false} TotalOverOther(m: map<string, nat>, ks: seq<string>, k: string, v: nat)
    requires forall i :: 0 <= i < |ks| ==> ks[i] in m
    requires k !in ks
    ensures TotalOver(m[k := v], ks) == TotalOver(m, ks)
  {
    if ks != [] {
      TotalOverOther(m, ks[..|ks| - 1], k, v);
    }
  }

  /** Adding `b` to the value of a key the list holds once adds `b` to the total. */
  lemma {:induction false} TotalOverBump(m: map<string, nat>, ks: seq<string>, k: string, b: nat)
    requires forall i :: 0 <= i < |ks| ==> ks[i] in m
    requires NoDuplicates(ks) && k in ks
    ensures TotalOver(m[k := m[k] + b], ks) == TotalOver(m, ks) + b
  {
    var init := ks[..|ks| - 1];
    var last := ks[|ks| - 1];
    assert ks == init + [last];
    if last == k {
      assert k !in init;
      TotalOverOther(m, init, k, m[k] + b);
    } else {
      assert k in init;
      TotalOverBump(m, init, k, b);
    }
  }

  /** Every language of the key order has an entry in the map. */
  lemma KeyOrderInMap(es: seq<LangBytes>)
    ensures forall i :: 0 <= i < |KeyOrder(es)| ==> KeyOrder(es)[i] in ByteMap(es)
  {
    ByteMapDomain(es);
  }

  /** The total of the map over its key order is the total of all entry bytes. */
  lemma {:induction false} TotalIsAllBytes(es: seq<LangBytes>)
    ensures forall i :: 0 <= i < |KeyOrder(es)| ==> KeyOrder(es)[i] in ByteMap(es)
    ensures TotalOver(ByteMap(es), KeyOrder(es)) == AllBytes(es)
  {
    KeyOrderInMap(es);
    if es != [] {
      var init := es[..|es| - 1];
      var e := es[|es| - 1];
      assert es == init + [e];
      TotalIsAllBytes(init);
      KeyOrderInMap(init);
      if e.lang in LangsOf(init) {
        TotalStepKnown(init, e);
      } else {
        TotalStepNew(init, e);
      }
    }
  }

  /** An entry of a language seen before adds its bytes to that language's value. */
  lemma TotalStepKnown(init: seq<LangBytes>, e: LangBytes)
    requires forall i :: 0 <= i < |KeyOrder(init)| ==> KeyOrder(init)[i] in ByteMap(init)
    requires TotalOver(ByteMap(init), KeyOrder(init)) == AllBytes(init)
    requires e.lang in LangsOf(init)
    ensures forall i :: 0 <= i < |KeyOrder(init + [e])| ==> KeyOrder(init + [e])[i] in ByteMap(init + [e])
    ensures TotalOver(ByteMap(init + [e]), KeyOrder(init + [e])) == AllBytes(init + [e])
  {
    var m := ByteMap(init);
    var ks := KeyOrder(init);
    assert ByteMap(init + [e]) == AddBytes(m, e) by {
      ByteMapSnoc(init, e);
    }
    assert KeyOrder(init + [e]) == ks by {
      KeyOrderSnoc(init, e);
    }
    assert e.lang in ks;
    TotalAddKnown(m, ks, e);
    assert AllBytes(init + [e]) == AllBytes(init) + e.bytes by {
      assert (init + [e])[..|init|] == init;
    }
  }

  /** Adding an entry of a listed language adds its bytes to the total. */
  lemma TotalAddKnown(m: map<string, nat>, ks: seq<string>, e: LangBytes)
    requires forall i :: 0 <= i < |ks| ==> ks[i] in m
    requires NoDuplicates(ks) && e.lang in ks
    ensures forall i :: 0 <= i < |ks| ==> ks[i] in AddBytes(m, e)
    ensures TotalOver(AddBytes(m, e), ks) == TotalOver(m, ks) + e.bytes
  {
    TotalOverBump(m, ks, e.lang, e.bytes);
  }

  /** An entry of a new language adds a key, last, holding its bytes. */
  lemma TotalStepNew(init: seq<LangBytes>, e: LangBytes)
    requires forall i :: 0 <= i < |KeyOrder(init)| ==> KeyOrder(init)[i] in ByteMap(init)
    requires TotalOver(ByteMap(init), KeyOrder(init)) == AllBytes(init)
    requires e.lang !in LangsOf(init)
    ensures forall i :: 0 <= i < |KeyOrder(init + [e])| ==> KeyOrder(init + [e])[i] in ByteMap(init + [e])
    ensures TotalOver(ByteMap(init + [e]), KeyOrder(init + [e])) == AllBytes(init + [e])
  {
    var m := ByteMap(init);
    var ks := KeyOrder(init);
    assert ByteMap(init + [e]) == AddBytes(m, e) by {
      ByteMapSnoc(init, e);
    }
    assert KeyOrder(init + [e]) == ks + [e.lang] by {
      KeyOrderSnoc(init, e);
    }
    assert e.lang !in ks && e.lang !in m by {
      ByteMapDomain(init);
    }
    TotalAddNew(m, ks, e);
    assert AllBytes(init + [e]) == AllBytes(init) + e.bytes by {
      assert (init + [e])[..|init|] == init;
    }
  }

  /** Adding an entry of an unlisted language and listing it last adds its bytes to the total. */
  lemma TotalAddNew(m: map<string, nat>, ks: seq<string>, e: LangBytes)
    requires forall i :: 0 <= i < |ks| ==> ks[i] in m
    requires e.lang !in ks && e.lang !in m
    ensures forall i :: 0 <= i < |ks + [e.lang]| ==> (ks + [e.lang])[i] in AddBytes(m, e)
    ensures TotalOver(AddBytes(m, e), ks + [e.lang]) == TotalOver(m, ks) + e.bytes
  {
    var ks' := ks + [e.lang];
    TotalOverOther(m, ks, e.lang, e.bytes);
    assert ks'[..|ks'| - 1] == ks;
  }

  /** Every value of the map is at most the total. */
  lemma {:induction false} ValueAtMostTotal(m: map<string, nat>, ks: seq<string>, i: int)
    requires forall j :: 0 <= j < |ks| ==> ks[j] in m
    requires 0 <= i < |ks|
    ensures m[ks[i]] <= TotalOver(m, ks)
  {
    if i < |ks| - 1 {
      ValueAtMostTotal(m, ks[..|ks| - 1], i);
    }
  }

  // ---------------------------------------------------------------- percentages

  /** `(bytes / totalBytes) * 100`, before `toFixed(2)`. */
  function RawPercent(bytes: nat, total: nat): real
    requires total > 0
  {
    (bytes as real / total as real) * 100.0
  }

  /** The sort key of `(a, b) => Number(b.percentage) - Number(a.percentage)`. */
  function Percentage(share: LangShare): real
  {
    share.percentage
  }

  /** The `map` over `Object.entries(globalLanguageBytes)`. */
  function Shares(m: map<string, nat>, ks: seq<string>, total: nat): (r: seq<LangShare>)
    requires total > 0 && forall i :: 0 <= i < |ks| ==> ks[i] in m
    ensures |r| == |ks|
    ensures forall i :: 0 <= i < |ks| ==> r[i] == LangShare(ks[i], RoundCents(RawPercent(m[ks[i]], total)))
  {
    seq(|ks|, i requires 0 <= i < |ks| => LangShare(ks[i], RoundCents(RawPercent(m[ks[i]], total))))
  }

  /** The unrounded percentages of the keys `ks`, added up. */
  function PercentSum(m: map<string, nat>, ks: seq<string>, total: nat): real
    requires total > 0 && forall i :: 0 <= i < |ks| ==> ks[i] in m
  {
    if ks == [] then 0.0 else PercentSum(m, ks[..|ks| - 1], total) + RawPercent(m[ks[|ks| - 1]], total)
  }

  lemma {:induction false} PercentSumIsShareOfTotal(m: map<string, nat>, ks: seq<string>, total: nat)
    requires total > 0 && forall i :: 0 <= i < |ks| ==> ks[i] in m
    ensures PercentSum(m, ks, total) == TotalOver(m, ks) as real / total as real * 100.0
  {
    if ks != [] {
      var init := ks[..|ks| - 1];
      PercentSumIsShareOfTotal(m, init, total);
      var a := TotalOver(m, init) as real;
      var b := m[ks[|ks| - 1]] as real;
      var t := total as real;
      assert (a + b) / t == a / t + b / t;
    }
  }

  /** Before rounding, each language's percentage lies within [0, 100]. */
  lemma RawPercentagesWithinRange(es: seq<LangBytes>)
    requires AllBytes(es) > 0
    ensures forall i :: 0 <= i < |KeyOrder(es)| ==> KeyOrder(es)[i] in ByteMap(es)
    ensures forall i :: 0 <= i < |KeyOrder(es)| ==>
              0.0 <= RawPercent(ByteMap(es)[KeyOrder(es)[i]], AllBytes(es)) <= 100.0
  {
    TotalIsAllBytes(es);
    var m := ByteMap(es);
    var ks := KeyOrder(es);
    forall i | 0 <= i < |ks| ensures 0.0 <= RawPercent(m[ks[i]], AllBytes(es)) <= 100.0 {
      ValueAtMostTotal(m, ks, i);
      RatioBounds(m[ks[i]], AllBytes(es));
    }
  }

  /** Before rounding, the percentages of all languages add up to 100. */
  lemma RawPercentagesAddUp(es: seq<LangBytes>)
    requires AllBytes(es) > 0
    ensures forall i :: 0 <= i < |KeyOrder(es)| ==> KeyOrder(es)[i] in ByteMap(es)
    ensures PercentSum(ByteMap(es), KeyOrder(es), AllBytes(es)) == 100.0
  {
    TotalIsAllBytes(es);
    var m := ByteMap(es);
    var ks := KeyOrder(es);
    var t := AllBytes(es) as real;
    PercentSumIsShareOfTotal(m, ks, AllBytes(es));
    assert PercentSum(m, ks, AllBytes(es)) == t / t * 100.0;
    DivSelf(t);
  }

  // ---------------------------------------------------------------- the route

  /** `!username`: an absent or empty user name. */
  predicate MissingUsername(username: Option<string>)
  {
    username.None? || username.value == ""
  }

  /** The languages answered for the sampled entries `es`: none when they
      hold no bytes, else the shares sorted from the largest down. */
  function ProfileOf(es: seq<LangBytes>): (r: seq<LangShare>)
    ensures SortedDesc(r, Percentage)
  {
    TotalIsAllBytes(es);
    var total := TotalOver(ByteMap(es), KeyOrder(es));
    if total == 0 then []
    else SortDesc(Shares(ByteMap(es), KeyOrder(es), total), Percentage)
  }

  /** What `POST` answers: 400 without a user name, 500 when the listing is
      not an array, and otherwise the profile of the sampled repositories. */
  function LanguageProfile(username: Option<string>, listing: Listing): (r: Response)
    ensures r.Failure? <==> MissingUsername(username) || listing.NotAnArray?
    ensures r.Failure? ==> r.status == (if MissingUsername(username) then 400 else 500)
  {
    if MissingUsername(username) then Failure(400, "Username is required")
    else match listing
      case NotAnArray => Failure(500, "Failed to fetch repositories")
      case Repos(repos) => Languages(ProfileOf(Entries(TopRepos(repos))))
  }

  /** The route handler: the sampling, the accumulating loop, the total and the percentages. */
  method Post(username: Option<string>, listing: Listing) returns (r: Response)
    ensures r == LanguageProfile(username, listing)
  {
    if MissingUsername(username) {
      return Failure(400, "Username is required");
    }
    if listing.NotAnArray? {
      return Failure(500, "Failed to fetch repositories");
    }
    var topRepos := TopRepos(listing.repos);
    var bytes, order := AccumulateBytes(topRepos);
    TotalIsAllBytes(Entries(topRepos));
    var totalBytes := TotalOver(bytes, order);
    if totalBytes == 0 {
      return Languages([]);
    }
    r := Languages(SortDesc(Shares(bytes, order, totalBytes), Percentage));
  }

  /** Each sorted share is the share of one of the keys. */
  lemma SortedShareOrigin(m: map<string, nat>, ks: seq<string>, total: nat, i: int)
    requires total > 0 && forall k :: 0 <= k < |ks| ==> ks[k] in m
    requires 0 <= i < |SortDesc(Shares(m, ks, total), Percentage)|
    ensures var r := SortDesc(Shares(m, ks, total), Percentage);
            exists si :: 0 <= si < |ks| && Shares(m, ks, total)[si] == r[i] && r[i].lang == ks[si]
  {
    var shares := Shares(m, ks, total);
    var r := SortDesc(shares, Percentage);
    assert r[i] in multiset(shares);
    var si :| 0 <= si < |shares| && shares[si] == r[i];
  }

  /** Sorting the shares of distinct keys keeps one share per key: no
      language twice, and every key present. */
  lemma SortedSharesPerKey(m: map<string, nat>, ks: seq<string>, total: nat)
    requires total > 0 && forall i :: 0 <= i < |ks| ==> ks[i] in m
    requires NoDuplicates(ks)
    ensures var r := SortDesc(Shares(m, ks, total), Percentage);
            && (forall i, j :: 0 <= i < j < |r| ==> r[i].lang != r[j].lang)
            && (forall k :: k in ks <==> exists i :: 0 <= i < |r| && r[i].lang == k)
            && (forall i :: 0 <= i < |r| ==> r[i].lang in m && r[i].percentage == RoundCents(RawPercent(m[r[i].lang], total)))
  {
    var shares := Shares(m, ks, total);
    var r := SortDesc(shares, Percentage);
    assert NoDuplicates(shares) by {
      forall a, b | 0 <= a < b < |shares| ensures shares[a] != shares[b] {
        assert ks[a] != ks[b];
      }
    }
    forall i, j | 0 <= i < j < |r| ensures r[i].lang != r[j].lang {
      SortedShareOrigin(m, ks, total, i);
      SortedShareOrigin(m, ks, total, j);
      var si :| 0 <= si < |ks| && shares[si] == r[i] && r[i].lang == ks[si];
      var sj :| 0 <= sj < |ks| && shares[sj] == r[j] && r[j].lang == ks[sj];
      if r[i].lang == r[j].lang {
        assert si == sj;
        TwiceCount(r, i, j);
        NoDuplicatesCount(shares, r[i]);
        assert false;
      }
    }
    forall k | k in ks
      ensures exists i :: 0 <= i < |r| && r[i].lang == k
    {
      var n :| 0 <= n < |ks| && ks[n] == k;
      assert shares[n] in multiset(r);
      var i :| 0 <= i < |r| && r[i] == shares[n];
    }
    forall k | exists i :: 0 <= i < |r| && r[i].lang == k
      ensures k in ks
    {
      var i :| 0 <= i < |r| && r[i].lang == k;
      SortedShareOrigin(m, ks, total, i);
    }
    forall i | 0 <= i < |r|
      ensures r[i].lang in m && r[i].percentage == RoundCents(RawPercent(m[r[i].lang], total))
    {
      SortedShareOrigin(m, ks, total, i);
    }
  }

  /** The profile has exactly one share per language of the sampled
      entries, none repeated, each the language's byte sum as a percentage
      of all sampled bytes rounded to cents; and it is empty exactly when
      the entries hold no bytes. */
  lemma ProfileShares(es: seq<LangBytes>)
    ensures ProfileOf(es) == [] <==> AllBytes(es) == 0
    ensures AllBytes(es) > 0 ==>
              && (forall i, j :: 0 <= i < j < |ProfileOf(es)| ==> ProfileOf(es)[i].lang != ProfileOf(es)[j].lang)
              && (forall lang :: lang in LangsOf(es) <==> exists i :: 0 <= i < |ProfileOf(es)| && ProfileOf(es)[i].lang == lang)
              && (forall i :: 0 <= i < |ProfileOf(es)| ==>
                    ProfileOf(es)[i].percentage == RoundCents(RawPercent(BytesFor(es, ProfileOf(es)[i].lang), AllBytes(es))))
  {
    TotalIsAllBytes(es);
    var total := AllBytes(es);
    var ks := KeyOrder(es);
    var m := ByteMap(es);
    if total > 0 {
      assert es != [];
      assert ks != [] by {
        assert LangsOf(es)[0] in ks;
      }
      SortedSharesPerKey(m, ks, total);
      var r := ProfileOf(es);
      assert r == SortDesc(Shares(m, ks, total), Percentage);
      forall lang ensures lang in LangsOf(es) <==> lang in ks {
        if lang in LangsOf(es) {
          var i :| 0 <= i < |LangsOf(es)| && LangsOf(es)[i] == lang;
        }
        if lang in ks {
          var i :| 0 <= i < |ks| && ks[i] == lang;
        }
      }
      forall i | 0 <= i < |r|
        ensures r[i].percentage == RoundCents(RawPercent(BytesFor(es, r[i].lang), total))
      {
        assert r[i].lang in ks;
        ByteMapValue(es, r[i].lang);
      }
    }
  }
}
