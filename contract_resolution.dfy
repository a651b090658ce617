/**
 * Resource-library contract resolution: which contracts apply to a view id,
 * given the configured mapping from URL patterns to contract lists.
 *
 * A pattern ending in `*` is a prefix pattern (`*` alone is the empty
 * prefix); any other pattern must equal the view id. The Java code walks the
 * map's entries in the map's own iteration order; that order is the parameter
 * `entryOrder`, and the result is proved not to depend on it.
 */
module ContractResolution {
  import opened Wrappers
  import opened JavaStrings

  type Contracts = seq<String>

  /** `urlPattern.endsWith("*")` */
  predicate IsPrefixPattern(pattern: String) {
    |pattern| > 0 && pattern[|pattern| - 1] == '*'
  }

  function PatternPrefix(pattern: String): String
    requires IsPrefixPattern(pattern)
  {
    pattern[..|pattern| - 1]
  }

  predicate PrefixMatches(pattern: String, viewId: String) {
    IsPrefixPattern(pattern) && StartsWith(viewId, PatternPrefix(pattern))
  }

  predicate ExactMatches(pattern: String, viewId: String) {
    !IsPrefixPattern(pattern) && pattern == viewId
  }

  /** `k` is a matching prefix pattern and no matching prefix pattern is longer. */
  ghost predicate IsLongestMatch(mappings: map<String, Contracts>, viewId: String, k: String) {
    && k in mappings
    && PrefixMatches(k, viewId)
    && forall k' :: k' in mappings && PrefixMatches(k', viewId) ==> |k'| <= |k|
  }

  /** Two matching prefix patterns of the same length are the same pattern. */
  lemma LongestMatchUnique(mappings: map<String, Contracts>, viewId: String, k1: String, k2: String)
    requires IsLongestMatch(mappings, viewId, k1) && IsLongestMatch(mappings, viewId, k2)
    ensures k1 == k2
  {
    assert |k1| == |k2|;
    assert PatternPrefix(k1) == viewId[..|k1| - 1] == PatternPrefix(k2);
    assert k1 == PatternPrefix(k1) + ['*'];
    assert k2 == PatternPrefix(k2) + ['*'];
  }

  /** Among finitely many patterns there is a longest one. */
  lemma {:induction false} LongestExists(patterns: set<String>)
    requires patterns != {}
    ensures exists k :: k in patterns && forall k' :: k' in patterns ==> |k'| <= |k|
  {
    var x :| x in patterns;
    var rest := patterns - {x};
    if rest != {} {
      LongestExists(rest);
      var y :| y in rest && forall k' :: k' in rest ==> |k'| <= |y|;
      if |x| <= |y| {
        assert forall k' :: k' in patterns ==> |k'| <= |y|;
      } else {
        assert forall k' :: k' in patterns ==> |k'| <= |x|;
      }
    } else {
      assert patterns == {x};
    }
  }

  /** The pattern the lookup settles on: the exact key, else the longest matching prefix pattern. */
  ghost function ChosenPattern(mappings: map<String, Contracts>, viewId: String): (r: Option<String>)
    ensures r.Some? ==> r.value in mappings
  {
    if viewId in mappings && !IsPrefixPattern(viewId) then Some(viewId)
    else if exists k :: k in mappings && PrefixMatches(k, viewId) then
      var matching := set k | k in mappings && PrefixMatches(k, viewId);
      var k0 :| k0 in mappings && PrefixMatches(k0, viewId);
      assert k0 in matching;
      LongestExists(matching);
      var k :| IsLongestMatch(mappings, viewId, k);
      Some(k)
    else None
  }

  /**
   * What `calculateResourceLibraryContracts` answers: an empty list when no
   * mappings are configured; the chosen pattern's contracts; else the `*`
   * entry; else null (`None`).
   */
  ghost function ResolveContracts(contractMappings: Option<map<String, Contracts>>, viewId: String): Option<Contracts>
  {
    match contractMappings
    case None => Some([])
    case Some(mappings) =>
      var chosen := ChosenPattern(mappings, viewId);
      if chosen.Some? then Some(mappings[chosen.value]) else Get(mappings, "*")
  }

  /** `Map.get`: the contracts under `k`, or null (`None`) when there are none. */
  function Get(mappings: map<String, Contracts>, k: String): Option<Contracts> {
    if k in mappings then Some(mappings[k]) else None
  }

  /** `calculateResourceLibraryContracts`, walking the entries in `entryOrder`. */
  method CalculateResourceLibraryContracts(contractMappings: Option<map<String, Contracts>>,
                                           entryOrder: seq<String>, viewId: String)
    returns (result: Option<Contracts>)
    requires contractMappings.Some? ==> forall k :: k in entryOrder <==> k in contractMappings.value
    ensures result == ResolveContracts(contractMappings, viewId)
  {
    if contractMappings.None? {
      return Some([]);
    }
    var mappings := contractMappings.value;
    var longestPattern: Option<String> := None;
    var longestMatch: String := [];
    var exact := false;
    var i := 0;
    while i < |entryOrder|
      invariant 0 <= i <= |entryOrder|
      invariant exact ==> longestPattern == Some(viewId) && viewId in mappings && !IsPrefixPattern(viewId)
      invariant !exact ==> forall j :: 0 <= j < i ==> !ExactMatches(entryOrder[j], viewId)
      invariant !exact && longestPattern.None? ==> forall j :: 0 <= j < i ==> !PrefixMatches(entryOrder[j], viewId)
      invariant !exact && longestPattern.Some? ==>
                  && longestPattern.value in mappings
                  && PrefixMatches(longestPattern.value, viewId)
                  && longestMatch == PatternPrefix(longestPattern.value)
                  && forall j :: 0 <= j < i && PrefixMatches(entryOrder[j], viewId) ==>
                       |entryOrder[j]| <= |longestPattern.value|
    {
      var urlPattern := entryOrder[i];
      if IsPrefixPattern(urlPattern) {
        var prefix := urlPattern[..|urlPattern| - 1];
        if StartsWith(viewId, prefix) {
          if longestPattern.None? {
            longestPattern := Some(urlPattern);
            longestMatch := prefix;
          } else if |longestMatch| < |prefix| {
            longestPattern := Some(urlPattern);
            longestMatch := prefix;
          }
        }
      } else if viewId == urlPattern {
        longestPattern := Some(urlPattern);
        exact := true;
        break;
      }
      i := i + 1;
    }
    result := None;
    if longestPattern.Some? {
      result := Get(mappings, longestPattern.value);
    }
    if result.None? {
      result := Get(mappings, "*");
    }
    if !exact {
      assert viewId in mappings ==> IsPrefixPattern(viewId) by {
        if viewId in mappings && !IsPrefixPattern(viewId) {
          assert ExactMatches(viewId, viewId);
        }
      }
      if longestPattern.Some? {
        assert IsLongestMatch(mappings, viewId, longestPattern.value);
        var chosen := ChosenPattern(mappings, viewId);
        LongestMatchUnique(mappings, viewId, chosen.value, longestPattern.value);
      }
    }
  }

  /** A catch-all `*` entry makes the answer non-null: `*` is the empty prefix and matches every view id. */
  lemma CatchAllNeverNull(mappings: map<String, Contracts>, viewId: String)
    requires "*" in mappings
    ensures ResolveContracts(Some(mappings), viewId).Some?
  {
    assert PrefixMatches("*", viewId);
  }

  /** Without a catch-all and with no key matching, the answer is null rather than an empty list. */
  lemma NoMatchIsNull(mappings: map<String, Contracts>, viewId: String)
    requires "*" !in mappings
    requires forall k :: k in mappings ==> !ExactMatches(k, viewId) && !PrefixMatches(k, viewId)
    ensures ResolveContracts(Some(mappings), viewId) == None
  {
  }

  /** A key equal to the view id (and not itself a prefix pattern) always wins. */
  lemma ExactKeyWins(mappings: map<String, Contracts>, viewId: String)
    requires viewId in mappings && !IsPrefixPattern(viewId)
    ensures ResolveContracts(Some(mappings), viewId) == Some(mappings[viewId])
  {
  }

  /**
   * The worked example: with the prefix patterns for "/admin/" (to X) and
   * "/admin/reports/" (to Y) and the catch-all (to Z), "/admin/reports/q1"
   * resolves to Y and "/other" to Z.
   */
  lemma LongestPrefixExample()
    ensures ResolveContracts(Some(map["/admin/*" := ["X"], "/admin/reports/*" := ["Y"], "*" := ["Z"]]),
                             "/admin/reports/q1") == Some(["Y"])
    ensures ResolveContracts(Some(map["/admin/*" := ["X"], "/admin/reports/*" := ["Y"], "*" := ["Z"]]),
                             "/other") == Some(["Z"])
  {
    var m := map["/admin/*" := ["X"], "/admin/reports/*" := ["Y"], "*" := ["Z"]];
    var v := "/admin/reports/q1";
    assert PrefixMatches("/admin/reports/*", v);
    assert IsLongestMatch(m, v, "/admin/reports/*");
    var c := ChosenPattern(m, v);
    LongestMatchUnique(m, v, c.value, "/admin/reports/*");

    var w := "/other";
    assert !PrefixMatches("/admin/*", w);
    assert !PrefixMatches("/admin/reports/*", w);
    assert PrefixMatches("*", w);
    assert IsLongestMatch(m, w, "*");
    var d := ChosenPattern(m, w);
    LongestMatchUnique(m, w, d.value, "*");
  }
}
