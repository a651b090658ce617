/**
 * Which view ids the Facelets view-handling strategy handles, and how a view
 * id is turned into an implicit navigation outcome.
 *
 * The strategy keeps two arrays, `extensionsArray` and `prefixesArray`, that
 * are either both unset (no `FaceletsViewMappings` option: the configured
 * Facelets suffixes and `.xhtml` apply) or both filled from the option's
 * `;`-separated entries. The flow-definition suffix and the configured
 * Facelets suffixes are parameters.
 */
module ViewMappings {
  import opened Wrappers
  import opened JavaStrings

  /** `ViewHandler.DEFAULT_FACELETS_SUFFIX` of the Jakarta Faces API. */
  const DEFAULT_FACELETS_SUFFIX: String := ".xhtml"

  /** The two arrays: both unset, or both set. */
  datatype Mappings = Defaults | Mapped(extensions: seq<String>, prefixes: seq<String>)

  /** What one entry of the mapping option contributes. */
  datatype EntryKind = Skipped | Extension(ext: String) | Prefix(pre: String)

  /** One entry is classified once trimmed. */
  function ClassifyEntry(raw: String): EntryKind
  {
    ClassifyTrimmed(Trim(raw))
  }

  /** A trimmed entry: `*ext` is an extension, `pre*` a prefix, anything else (or too short) nothing. */
  function ClassifyTrimmed(m: String): EntryKind
  {
    if |m| <= 1 then Skipped
    else if m[0] == '*' then Extension(m[1..])
    else if m[|m| - 1] == '*' then Prefix(m[..|m| - 1])
    else Skipped
  }

  /** Each entry's classification, in entry order. */
  function Classified(entries: seq<String>): (r: seq<EntryKind>)
    ensures |r| == |entries| && forall k :: 0 <= k < |entries| ==> r[k] == ClassifyEntry(entries[k])
  {
    seq(|entries|, k requires 0 <= k < |entries| => ClassifyEntry(entries[k]))
  }

  /** The extensions the classified entries contribute, in entry order. */
  function ExtensionsOf(kinds: seq<EntryKind>): seq<String>
  {
    if kinds == [] then []
    else
      var last := kinds[|kinds| - 1];
      ExtensionsOf(kinds[..|kinds| - 1]) + (if last.Extension? then [last.ext] else [])
  }

  /** The prefixes the classified entries contribute, in entry order. */
  function PrefixesOf(kinds: seq<EntryKind>): seq<String>
  {
    if kinds == [] then []
    else
      var last := kinds[|kinds| - 1];
      PrefixesOf(kinds[..|kinds| - 1]) + (if last.Prefix? then [last.pre] else [])
  }

  /**
   * `initializeMappings`: with no option (or an empty one) the arrays stay
   * unset; otherwise each `;`-separated entry is classified in turn.
   */
  method InitializeMappings(viewMappings: Option<String>) returns (m: Mappings)
    ensures m.Defaults? <==> (viewMappings == None || viewMappings == Some([]))
    ensures m.Mapped? ==> (m.extensions == ExtensionsOf(Classified(Split(viewMappings.value, ';')))
                           && m.prefixes == PrefixesOf(Classified(Split(viewMappings.value, ';'))))
  {
    if viewMappings == None || |viewMappings.value| == 0 {
      return Defaults;
    }
    var mappingsArray := Split(viewMappings.value, ';');
    ghost var kinds := Classified(mappingsArray);
    var extensionsList: seq<String> := [];
    var prefixesList: seq<String> := [];
    for k := 0 to |mappingsArray|
      invariant extensionsList == ExtensionsOf(kinds[..k])
      invariant prefixesList == PrefixesOf(kinds[..k])
    {
      OfStep(kinds, k);
      var mapping := Trim(mappingsArray[k]);
      var mappingLength := |mapping|;
      assert kinds[k] == ClassifyTrimmed(mapping);
      if mappingLength <= 1 {
        continue;
      }
      if mapping[0] == '*' {
        extensionsList := extensionsList + [mapping[1..]];
      } else if mapping[mappingLength - 1] == '*' {
        prefixesList := prefixesList + [mapping[..mappingLength - 1]];
      }
    }
    assert kinds[..|kinds|] == kinds;
    m := Mapped(extensionsList, prefixesList);
  }

  /** One more classified entry adds what it contributes to the end of the lists. */
  lemma OfStep(kinds: seq<EntryKind>, k: nat)
    requires k < |kinds|
    ensures ExtensionsOf(kinds[..k + 1]) == ExtensionsOf(kinds[..k]) + (if kinds[k].Extension? then [kinds[k].ext] else [])
    ensures PrefixesOf(kinds[..k + 1]) == PrefixesOf(kinds[..k]) + (if kinds[k].Prefix? then [kinds[k].pre] else [])
  {
    assert kinds[..k + 1][..k] == kinds[..k];
  }

  /** A trimmed entry is an extension entry exactly when it is `*` followed by a non-empty extension. */
  lemma ClassifyExtension(m: String, e: String)
    ensures ClassifyTrimmed(m) == Extension(e) <==> (m == ['*'] + e && e != [])
  {
    if m == ['*'] + e && e != [] {
      assert m[1..] == e;
    }
    if ClassifyTrimmed(m) == Extension(e) {
      assert m == [m[0]] + m[1..];
    }
  }

  /** A trimmed entry is a prefix entry exactly when it is a non-empty prefix not starting with `*`, then `*`. */
  lemma ClassifyPrefix(m: String, p: String)
    ensures ClassifyTrimmed(m) == Prefix(p) <==> (m == p + ['*'] && p != [] && p[0] != '*')
  {
    if m == p + ['*'] && p != [] && p[0] != '*' {
      assert m[0] == p[0];
      assert m[..|m| - 1] == p;
    }
    if ClassifyTrimmed(m) == Prefix(p) {
      assert m == m[..|m| - 1] + [m[|m| - 1]];
    }
  }

  /** The extensions are exactly those of the extension entries. */
  lemma {:induction false} ExtensionsOfMembership(kinds: seq<EntryKind>, e: String)
    ensures e in ExtensionsOf(kinds) <==> Extension(e) in kinds
  {
    if kinds != [] {
      var init, last := kinds[..|kinds| - 1], kinds[|kinds| - 1];
      ExtensionsOfMembership(init, e);
      assert kinds == init + [last];
    }
  }

  /** The prefixes are exactly those of the prefix entries. */
  lemma {:induction false} PrefixesOfMembership(kinds: seq<EntryKind>, p: String)
    ensures p in PrefixesOf(kinds) <==> Prefix(p) in kinds
  {
    if kinds != [] {
      var init, last := kinds[..|kinds| - 1], kinds[|kinds| - 1];
      PrefixesOfMembership(init, p);
      assert kinds == init + [last];
    }
  }

  /** The first of `suffixes` that `viewId` ends with (the `for ... endsWith ... return` loops). */
  function FirstSuffixOf(viewId: String, suffixes: seq<String>): (r: Option<String>)
    ensures r.Some? ==> r.value in suffixes && EndsWith(viewId, r.value)
    ensures r.Some? ==> exists i :: 0 <= i < |suffixes| && suffixes[i] == r.value
                                    && forall j :: 0 <= j < i ==> !EndsWith(viewId, suffixes[j])
    ensures r.None? <==> forall s :: s in suffixes ==> !EndsWith(viewId, s)
  {
    if suffixes == [] then None
    else if EndsWith(viewId, suffixes[0]) then Some(suffixes[0])
    else FirstSuffixOf(viewId, suffixes[1..])
  }

  /** The first of `prefixes` that `viewId` starts with. */
  function FirstPrefixOf(viewId: String, prefixes: seq<String>): (r: Option<String>)
    ensures r.Some? ==> r.value in prefixes && StartsWith(viewId, r.value)
    ensures r.Some? ==> exists i :: 0 <= i < |prefixes| && prefixes[i] == r.value
                                    && forall j :: 0 <= j < i ==> !StartsWith(viewId, prefixes[j])
    ensures r.None? <==> forall p :: p in prefixes ==> !StartsWith(viewId, p)
  {
    if prefixes == [] then None
    else if StartsWith(viewId, prefixes[0]) then Some(prefixes[0])
    else FirstPrefixOf(viewId, prefixes[1..])
  }

  /** `handlesByPrefixOrSuffix` */
  function HandlesByPrefixOrSuffix(viewId: String, flowSuffix: String, faceletsSuffixes: seq<String>,
                                   m: Mappings): (r: bool)
    ensures EndsWith(viewId, flowSuffix) ==> r
    ensures !EndsWith(viewId, flowSuffix) && m.Defaults? ==>
              (r <==> (exists s :: s in faceletsSuffixes && EndsWith(viewId, s))
                      || EndsWith(viewId, DEFAULT_FACELETS_SUFFIX))
    ensures !EndsWith(viewId, flowSuffix) && m.Mapped? ==>
              (r <==> (exists e :: e in m.extensions && EndsWith(viewId, e))
                      || (exists p :: p in m.prefixes && StartsWith(viewId, p)))
  {
    if EndsWith(viewId, flowSuffix) then true
    else match m
      case Defaults =>
        if FirstSuffixOf(viewId, faceletsSuffixes).Some? then true else EndsWith(viewId, DEFAULT_FACELETS_SUFFIX)
      case Mapped(extensions, prefixes) =>
        FirstSuffixOf(viewId, extensions).Some? || FirstPrefixOf(viewId, prefixes).Some?
  }

  /**
   * `getConfiguredSuffix`: the flow-definition suffix wins; then, without
   * mapping arrays, the first configured Facelets suffix the id ends with,
   * else `.xhtml`; with mapping arrays, the first extension the id ends with.
   */
  function GetConfiguredSuffix(viewId: String, flowSuffix: String, faceletsSuffixes: seq<String>,
                               m: Mappings): (r: Option<String>)
    ensures r.Some? ==> EndsWith(viewId, r.value)
    ensures EndsWith(viewId, flowSuffix) ==> r == Some(flowSuffix)
    ensures !EndsWith(viewId, flowSuffix) && m.Mapped? ==> r == FirstSuffixOf(viewId, m.extensions)
    ensures !EndsWith(viewId, flowSuffix) && m.Defaults? && FirstSuffixOf(viewId, faceletsSuffixes).Some? ==>
              r == FirstSuffixOf(viewId, faceletsSuffixes)
    ensures !EndsWith(viewId, flowSuffix) && m.Defaults? && FirstSuffixOf(viewId, faceletsSuffixes).None? ==>
              (r.Some? <==> EndsWith(viewId, DEFAULT_FACELETS_SUFFIX)) && (r.Some? ==> r.value == DEFAULT_FACELETS_SUFFIX)
  {
    if EndsWith(viewId, flowSuffix) then Some(flowSuffix)
    else match m
      case Defaults =>
        var suffix := FirstSuffixOf(viewId, faceletsSuffixes);
        if suffix.Some? then suffix
        else if EndsWith(viewId, DEFAULT_FACELETS_SUFFIX) then Some(DEFAULT_FACELETS_SUFFIX)
        else None
      case Mapped(extensions, _) => FirstSuffixOf(viewId, extensions)
  }

  /** `getConfiguredPrefix` */
  function GetConfiguredPrefix(viewId: String, m: Mappings): (r: Option<String>)
    ensures r.Some? ==> StartsWith(viewId, r.value)
  {
    match m
    case Defaults => None
    case Mapped(_, prefixes) => FirstPrefixOf(viewId, prefixes)
  }

  /** `toImplicitOutcome`: drop the configured suffix, else the configured prefix. */
  function ToImplicitOutcome(viewId: String, flowSuffix: String, faceletsSuffixes: seq<String>,
                             m: Mappings): (r: String)
    ensures var s := GetConfiguredSuffix(viewId, flowSuffix, faceletsSuffixes, m);
            s.Some? ==> r + s.value == viewId
    ensures var s := GetConfiguredSuffix(viewId, flowSuffix, faceletsSuffixes, m);
            var p := GetConfiguredPrefix(viewId, m);
            s.None? && p.Some? ==> p.value + r == viewId
    ensures var s := GetConfiguredSuffix(viewId, flowSuffix, faceletsSuffixes, m);
            var p := GetConfiguredPrefix(viewId, m);
            s.None? && p.None? ==> r == viewId
  {
    var suffix := GetConfiguredSuffix(viewId, flowSuffix, faceletsSuffixes, m);
    if suffix.Some? then
      LastIndexOfSuffix(viewId, suffix.value);
      viewId[..LastIndexOf(viewId, suffix.value)]
    else
      var prefix := GetConfiguredPrefix(viewId, m);
      if prefix.Some? then viewId[|prefix.value|..] else viewId
  }

  /**
   * A handled view id always has a configured suffix or prefix, so
   * `toImplicitOutcome` strips one of them; and conversely an id with a
   * configured suffix or prefix is handled.
   */
  lemma HandledIffAffix(viewId: String, flowSuffix: String, faceletsSuffixes: seq<String>, m: Mappings)
    ensures HandlesByPrefixOrSuffix(viewId, flowSuffix, faceletsSuffixes, m) <==>
            GetConfiguredSuffix(viewId, flowSuffix, faceletsSuffixes, m).Some?
            || GetConfiguredPrefix(viewId, m).Some?
  {
  }

  /** With extension `.faces` and prefix `/pages/` configured, `/pages/a.xhtml` is handled by prefix; its outcome is `a.xhtml`. */
  lemma ExampleMappedPrefix()
    ensures HandlesByPrefixOrSuffix("/pages/a.xhtml", "-flow.xml", [], Mapped([".faces"], ["/pages/"]))
    ensures ToImplicitOutcome("/pages/a.xhtml", "-flow.xml", [], Mapped([".faces"], ["/pages/"])) == "a.xhtml"
  {
    var m := Mapped([".faces"], ["/pages/"]);
    assert StartsWith("/pages/a.xhtml", "/pages/");
    assert !EndsWith("/pages/a.xhtml", ".faces");
    assert !EndsWith("/pages/a.xhtml", "-flow.xml");
  }
}
