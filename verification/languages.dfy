/** The chart data derived from a card's full repository list: a count per
    language, in order of first occurrence, and the colour of each slice. */
module Languages {
  import opened Wrappers
  import opened Cards

  const UnknownLanguage: string := "Unknown"

  /** `repo.language || 'Unknown'`: an absent, `null` or empty language
      is counted as "Unknown". */
  function LanguageKey(repo: Repo): (k: string)
    ensures |k| > 0
    ensures k == UnknownLanguage <==> repo.language in {None, Some(""), Some(UnknownLanguage)}
    ensures repo.language.Some? && repo.language.value != "" ==> k == repo.language.value
  {
    match repo.language
    case None => UnknownLanguage
    case Some(s) => if s == "" then UnknownLanguage else s
  }

  /** The key of every repository, in list order. */
  function LanguageKeys(repos: seq<Repo>): (ks: seq<string>)
    ensures |ks| == |repos|
    ensures forall i :: 0 <= i < |repos| ==> ks[i] == LanguageKey(repos[i])
  {
    seq(|repos|, i requires 0 <= i < |repos| => LanguageKey(repos[i]))
  }

  /** One pie slice: `{ name, value }` from `Object.entries`. */
  datatype Entry = Entry(name: string, value: nat)

  // ---------------------------------------------------------------------------
  // Reference definitions

  /** How many times `k` occurs in `ks`. */
  function Occurrences(ks: seq<string>, k: string): (n: nat)
    ensures n <= |ks|
    ensures n > 0 <==> k in ks
  {
    if |ks| == 0 then 0
    else Occurrences(ks[..|ks| - 1], k) + (if ks[|ks| - 1] == k then 1 else 0)
  }

  /** The index of the first occurrence of `k` in `ks`. */
  function FirstIndex(ks: seq<string>, k: string): (i: nat)
    requires k in ks
    ensures i < |ks| && ks[i] == k
    ensures forall j :: 0 <= j < i ==> ks[j] != k
  {
    if ks[0] == k then 0 else 1 + FirstIndex(ks[1..], k)
  }

  /** The names of a list of entries. */
  function Names(es: seq<Entry>): (ns: seq<string>)
    ensures |ns| == |es|
    ensures forall i :: 0 <= i < |es| ==> ns[i] == es[i].name
  {
    if |es| == 0 then [] else [es[0].name] + Names(es[1..])
  }

  /** The sum of the slice values. */
  function Total(es: seq<Entry>): nat
  {
    if |es| == 0 then 0 else es[0].value + Total(es[1..])
  }

  /** `languageCount[n] || 0`: the value stored under `n`, or 0 when there
      is none. */
  function ValueOf(es: seq<Entry>, n: string): nat
  {
    if |es| == 0 then 0
    else if es[0].name == n then es[0].value
    else ValueOf(es[1..], n)
  }

  /** No name occurs twice, as in any dictionary. */
  predicate DistinctNames(es: seq<Entry>)
  {
    forall i, j :: 0 <= i < j < |es| ==> es[i].name != es[j].name
  }

  /** What the chart promises about `es` as the tally of `ks`: one entry per
      distinct key, in order of first occurrence, each holding how often its
      key occurs. */
  ghost predicate IsTally(ks: seq<string>, es: seq<Entry>)
  {
    && DistinctNames(es)
    && (forall k :: k in ks <==> k in Names(es))
    && (forall i :: 0 <= i < |es| ==> es[i].value == Occurrences(ks, es[i].name))
    && FirstOccurrenceOrder(ks, es)
  }

  /** The names of `es` occur in `ks`, in order of their first occurrence. */
  ghost predicate FirstOccurrenceOrder(ks: seq<string>, es: seq<Entry>)
  {
    forall i, j :: 0 <= i < j < |es| ==>
      es[i].name in ks && es[j].name in ks &&
      FirstIndex(ks, es[i].name) < FirstIndex(ks, es[j].name)
  }

  // ---------------------------------------------------------------------------
  // The tally as the source computes it

  /** `languageCount[k] = (languageCount[k] || 0) + 1` on a dictionary that
      keeps insertion order: the entry for `k` grows by one, or a new entry
      with count 1 is appended. */
  function Bump(es: seq<Entry>, k: string): (r: seq<Entry>)
    ensures k in Names(es) ==> Names(r) == Names(es)
    ensures k !in Names(es) ==> r == es + [Entry(k, 1)]
    ensures Total(r) == Total(es) + 1
    ensures |es| <= |r| && forall i :: 0 <= i < |es| ==> r[i].name == es[i].name
  {
    if |es| == 0 then [Entry(k, 1)]
    else if es[0].name == k then
      var r := [es[0].(value := es[0].value + 1)] + es[1..];
      assert r[1..] == es[1..];
      assert Names(r) == [k] + Names(es[1..]) == Names(es);
      r
    else
      var rest := Bump(es[1..], k);
      var r := [es[0]] + rest;
      assert r[1..] == rest;
      assert Names(es) == [es[0].name] + Names(es[1..]);
      assert Names(r) == [es[0].name] + Names(rest);
      assert k !in Names(es) ==> r == es + [Entry(k, 1)] by {
        if k !in Names(es) {
          assert es == [es[0]] + es[1..];
        }
      }
      r
  }

  /** Bumping `k` adds one to the value looked up under `k` and changes no
      other lookup. */
  lemma {:induction false} BumpValueOf(es: seq<Entry>, k: string, n: string)
    ensures ValueOf(Bump(es, k), n) == ValueOf(es, n) + (if n == k then 1 else 0)
  {
    if |es| > 0 && es[0].name != k {
      BumpValueOf(es[1..], k, n);
      assert Bump(es, k)[1..] == Bump(es[1..], k);
    }
  }

  /** Bumping keeps the names distinct. */
  lemma BumpDistinct(es: seq<Entry>, k: string)
    requires DistinctNames(es)
    ensures DistinctNames(Bump(es, k))
  {
    var r := Bump(es, k);
    if k !in Names(es) {
      forall i | 0 <= i < |es|
        ensures es[i].name != k
      {
        assert Names(es)[i] == es[i].name;
      }
    } else {
      forall i, j | 0 <= i < j < |r|
        ensures r[i].name != r[j].name
      {
        assert Names(r)[i] == r[i].name && Names(r)[j] == r[j].name;
        assert Names(es)[i] == es[i].name && Names(es)[j] == es[j].name;
      }
    }
  }

  /** The dictionary after `forEach` has visited every key of `ks` in order. */
  function Counts(ks: seq<string>): (es: seq<Entry>)
    ensures |es| <= |ks|
    ensures |ks| > 0 ==> |es| > 0
  {
    if |ks| == 0 then [] else Bump(Counts(ks[..|ks| - 1]), ks[|ks| - 1])
  }

  /** In a dictionary, the value looked up under an entry's name is that
      entry's value. */
  lemma {:induction false} ValueOfEntry(es: seq<Entry>, i: nat)
    requires DistinctNames(es) && i < |es|
    ensures ValueOf(es, es[i].name) == es[i].value
  {
    if i > 0 {
      assert es[0].name != es[i].name;
      assert es[1..][i - 1] == es[i];
      ValueOfEntry(es[1..], i - 1);
    }
  }

  /** A first occurrence is not moved by appending to the sequence. */
  lemma FirstIndexAppend(ks: seq<string>, k: string, n: string)
    requires n in ks
    ensures FirstIndex(ks + [k], n) == FirstIndex(ks, n)
  {
    assert (ks + [k])[FirstIndex(ks, n)] == n;
  }

  /** A key seen for the first time has its first occurrence at the end. */
  lemma FirstIndexNew(ks: seq<string>, k: string)
    requires k !in ks
    ensures FirstIndex(ks + [k], k) == |ks|
  {
  }

  /** The tally of `ks + [k]` is the tally of `ks` bumped at `k`. */
  lemma CountsSnoc(ks: seq<string>, k: string)
    ensures Counts(ks + [k]) == Bump(Counts(ks), k)
  {
    assert (ks + [k])[..|ks|] == ks;
  }

  /** One more step of `forEach` over a prefix. */
  lemma CountsPrefix(ks: seq<string>, i: nat)
    requires i < |ks|
    ensures Counts(ks[..i + 1]) == Bump(Counts(ks[..i]), ks[i])
  {
    assert ks[..i + 1] == ks[..i] + [ks[i]];
    CountsSnoc(ks[..i], ks[i]);
  }

  /** The tally never holds a name twice. */
  lemma {:induction false} CountsDistinct(ks: seq<string>)
    ensures DistinctNames(Counts(ks))
  {
    if |ks| > 0 {
      CountsDistinct(ks[..|ks| - 1]);
      BumpDistinct(Counts(ks[..|ks| - 1]), ks[|ks| - 1]);
    }
  }

  /** The tally's names are exactly the keys that occur. */
  lemma {:induction false} CountsNames(ks: seq<string>)
    ensures forall n :: n in ks <==> n in Names(Counts(ks))
  {
    if |ks| > 0 {
      var pre := ks[..|ks| - 1];
      var k := ks[|ks| - 1];
      assert ks == pre + [k];
      CountsNames(pre);
      var es := Counts(pre);
      if k !in Names(es) {
        assert Names(es + [Entry(k, 1)]) == Names(es) + [k];
      }
      forall n
        ensures n in ks <==> n in Names(Counts(ks))
      {
        assert n in ks <==> n in pre || n == k;
      }
    }
  }

  /** The value looked up under any key is the number of times it occurs. */
  lemma {:induction false} CountsValueOf(ks: seq<string>, n: string)
    ensures ValueOf(Counts(ks), n) == Occurrences(ks, n)
  {
    if |ks| > 0 {
      CountsValueOf(ks[..|ks| - 1], n);
      BumpValueOf(Counts(ks[..|ks| - 1]), ks[|ks| - 1], n);
    }
  }

  /** Every slice value is the number of occurrences of its name. */
  lemma CountsValues(ks: seq<string>)
    ensures forall i :: 0 <= i < |Counts(ks)| ==>
              Counts(ks)[i].value == Occurrences(ks, Counts(ks)[i].name)
  {
    var es := Counts(ks);
    CountsDistinct(ks);
    forall i | 0 <= i < |es|
      ensures es[i].value == Occurrences(ks, es[i].name)
    {
      ValueOfEntry(es, i);
      CountsValueOf(ks, es[i].name);
    }
  }

  /** Bumping a key keeps the first-occurrence order of the names. */
  lemma BumpOrder(ks: seq<string>, k: string, es: seq<Entry>)
    requires FirstOccurrenceOrder(ks, es)
    requires forall n :: n in ks <==> n in Names(es)
    ensures FirstOccurrenceOrder(ks + [k], Bump(es, k))
  {
    var r := Bump(es, k);
    forall i, j | 0 <= i < j < |r|
      ensures r[i].name in ks + [k] && r[j].name in ks + [k]
      ensures FirstIndex(ks + [k], r[i].name) < FirstIndex(ks + [k], r[j].name)
    {
      assert Names(es)[i] == es[i].name;
      FirstIndexAppend(ks, k, r[i].name);
      if j < |es| {
        assert Names(es)[j] == es[j].name;
        FirstIndexAppend(ks, k, r[j].name);
      } else {
        assert r[j].name == k && k !in ks;
        FirstIndexNew(ks, k);
      }
    }
  }

  /** The slices come in order of the first occurrence of their names. */
  lemma {:induction false} CountsOrder(ks: seq<string>)
    ensures FirstOccurrenceOrder(ks, Counts(ks))
  {
    if |ks| > 0 {
      var pre := ks[..|ks| - 1];
      var k := ks[|ks| - 1];
      assert ks == pre + [k];
      CountsOrder(pre);
      CountsNames(pre);
      CountsSnoc(pre, k);
      BumpOrder(pre, k, Counts(pre));
    }
  }

  /** The tally keeps one entry per distinct key, in order of first
      occurrence, each counting its key's occurrences. */
  lemma CountsIsTally(ks: seq<string>)
    ensures IsTally(ks, Counts(ks))
  {
    CountsDistinct(ks);
    CountsNames(ks);
    CountsValues(ks);
    CountsOrder(ks);
  }

  /** Every slice of a tally counts at least one key, and a tally is empty
      exactly when there are no keys. */
  lemma TallyPositive(ks: seq<string>, es: seq<Entry>)
    requires IsTally(ks, es)
    ensures forall i :: 0 <= i < |es| ==> es[i].value >= 1
    ensures |es| == 0 <==> |ks| == 0
  {
    forall i | 0 <= i < |es|
      ensures es[i].value >= 1
    {
      assert es[i].name == Names(es)[i];
    }
    if |ks| > 0 {
      assert ks[0] in ks;
    }
  }

  /** The tally's values add up to the number of keys. */
  lemma {:induction false} CountsTotal(ks: seq<string>)
    ensures Total(Counts(ks)) == |ks|
  {
    if |ks| > 0 {
      CountsTotal(ks[..|ks| - 1]);
    }
  }

  /** The chart data of a repository list: the tally of its language keys,
      summing to the number of repositories, every slice at least 1, and
      empty exactly when the list is. */
  lemma ChartOfCounts(repos: seq<Repo>)
    ensures var es := Counts(LanguageKeys(repos));
            && IsTally(LanguageKeys(repos), es)
            && Total(es) == |repos|
            && (forall i :: 0 <= i < |es| ==> es[i].value >= 1)
            && (|es| > 0 <==> |repos| > 0)
  {
    var ks := LanguageKeys(repos);
    CountsIsTally(ks);
    CountsTotal(ks);
    TallyPositive(ks, Counts(ks));
  }

  /** The body of the chart derivation: visit every repository in order and
      bump the count of its language key. */
  method LanguageCounts(repos: seq<Repo>) returns (pieData: seq<Entry>)
    ensures IsTally(LanguageKeys(repos), pieData)
    ensures Total(pieData) == |repos|
    ensures forall i :: 0 <= i < |pieData| ==> pieData[i].value >= 1
    ensures |pieData| > 0 <==> |repos| > 0
  {
    var ks := LanguageKeys(repos);
    pieData := [];
    var i := 0;
    while i < |ks|
      invariant 0 <= i <= |ks|
      invariant pieData == Counts(ks[..i])
    {
      CountsPrefix(ks, i);
      pieData := Bump(pieData, ks[i]);
      i := i + 1;
    }
    assert pieData == Counts(ks) by {
      assert ks[..i] == ks;
    }
    ChartOfCounts(repos);
  }

  /** The worked example: repositories in Go, `null` and Go give the slices
      Go with 2 and Unknown with 1, in that order. */
  lemma GoNullGoExample()
    ensures Counts(LanguageKeys([Repo("a", "", Some("Go")), Repo("b", "", None), Repo("c", "", Some("Go"))]))
            == [Entry("Go", 2), Entry(UnknownLanguage, 1)]
  {
    var ks := LanguageKeys([Repo("a", "", Some("Go")), Repo("b", "", None), Repo("c", "", Some("Go"))]);
    assert ks == ["Go", UnknownLanguage, "Go"];
    assert ks[..2] == ["Go", UnknownLanguage];
    assert ks[..2][..1] == ["Go"];
    assert Counts(["Go"]) == [Entry("Go", 1)];
  }

  // ---------------------------------------------------------------------------
  // Slice colours

  const GrayColor: string := "#999999"

  /** The fixed language-to-colour table of the chart. */
  const LanguageColors: map<string, string> := map[
    "JavaScript" := "#f1e05a",
    "Python" := "#3572A5",
    "Java" := "#b07219",
    "TypeScript" := "#2b7489",
    "Ruby" := "#701516",
    "PHP" := "#4F5D95",
    "C" := "#555555",
    "C++" := "#f34b7d",
    "C#" := "#178600",
    "Go" := "#00ADD8",
    "Shell" := "#89e051",
    "Swift" := "#ffac45",
    "Kotlin" := "#F18E33",
    "Rust" := "#dea584",
    "HTML" := "#e34c26",
    "CSS" := "#563d7c",
    "ObjectiveC" := "#438eff",
    "Scala" := "#c22d40",
    "Dart" := "#00B4AB",
    "Vue" := "#41b883",
    "Unknown" := "#999999"
  ]

  predicate IsHexDigit(c: char)
  {
    '0' <= c <= '9' || 'a' <= c <= 'f' || 'A' <= c <= 'F'
  }

  /** A CSS colour of the form `#rrggbb`. */
  predicate IsHexColor(s: string)
  {
    |s| == 7 && s[0] == '#' && forall i :: 1 <= i < 7 ==> IsHexDigit(s[i])
  }

  /** `LANGUAGE_COLORS[language] || GRAY_COLOR`. Every table entry is a
      non-empty string, so a listed language gets its entry and any other
      name gets gray. */
  function GetColor(language: string): (r: string)
    ensures language in LanguageColors ==> r == LanguageColors[language]
    ensures language !in LanguageColors ==> r == GrayColor
    ensures IsHexColor(r)
  {
    if language in LanguageColors && LanguageColors[language] != "" then LanguageColors[language]
    else GrayColor
  }

  /** The "Unknown" slice is drawn in the fallback gray. */
  lemma UnknownIsGray()
    ensures GetColor(UnknownLanguage) == GrayColor
  {
  }

  /** The table keys the Objective-C colour as "ObjectiveC", while the
      language name the repository data carries is "Objective-C"; so
      Objective-C slices fall back to gray. */
  lemma ObjectiveCIsGray()
    ensures GetColor("Objective-C") == GrayColor
    ensures GetColor("ObjectiveC") != GrayColor
  {
  }

  /** The colour lookup with Objective-C keyed under the name the repository
      data uses. */
  function GetColorIntended(language: string): (r: string)
    ensures language == "Objective-C" ==> r == LanguageColors["ObjectiveC"]
    ensures language != "Objective-C" ==> r == GetColor(language)
    ensures IsHexColor(r)
  {
    if language == "Objective-C" then LanguageColors["ObjectiveC"] else GetColor(language)
  }
}
