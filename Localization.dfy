/**
 * Message bundle loading (de.sebthom.eclipse.commons.localization.MessagesInitializer):
 * the list of candidate `.properties` files for a locale, from the most
 * general to the most specific, their in-order merge, and the warning for
 * properties that no field consumes.
 *
 * The default locale, the class loader's resources and `plugin.xml` are
 * parameters: `Locale.getDefault().toString()` is `locale`, reading a
 * resource is `load`.
 */
module Localization {
  import opened Common

  /** `s.replace('.', '/')`. */
  function DotsToSlashes(s: string): string
  {
    ReplaceChar(s, '.', '/')
  }

  /** The number of occurrences of `c` in `s`. */
  function Count(s: string, c: char): nat
  {
    if s == [] then 0 else Count(s[..|s| - 1], c) + if s[|s| - 1] == c then 1 else 0
  }

  /** `s.lastIndexOf(c)`: the last index holding `c`, or -1. */
  function LastIndexOf(s: string, c: char): (k: int)
    ensures -1 <= k < |s|
    ensures k >= 0 ==> s[k] == c
    ensures forall j :: k < j < |s| ==> s[j] != c
  {
    if s == [] then -1 else if s[|s| - 1] == c then |s| - 1 else LastIndexOf(s[..|s| - 1], c)
  }

  /** `StringUtils.substringBeforeLast(s, "_")`: `s` itself when there is no `_`. */
  function SubstringBeforeLast(s: string): (r: string)
    ensures r <= s
    ensures LastIndexOf(s, '_') >= 0 ==> |r| < |s| && s[|r|] == '_'
    ensures LastIndexOf(s, '_') >= 0 ==> forall j :: |r| < j < |s| ==> s[j] != '_'
    ensures LastIndexOf(s, '_') == -1 ==> r == s
  {
    var k := LastIndexOf(s, '_');
    if k == -1 then s else s[..k]
  }

  /**
   * The locale strings the `while (true)` loop visits: the full locale,
   * then each time with its last `_`-segment dropped.
   */
  function LocaleChain(locale: string): seq<string>
    decreases |locale|
  {
    if LastIndexOf(locale, '_') == -1 then [locale]
    else [locale] + LocaleChain(SubstringBeforeLast(locale))
  }

  /** The file name for one locale variant. */
  function VariantFile(root: string, locale: string): string
  {
    root + "_" + locale + ".properties"
  }

  function VariantFiles(root: string, chain: seq<string>): (r: seq<string>)
    ensures |r| == |chain|
  {
    if chain == [] then [] else [VariantFile(root, chain[0])] + VariantFiles(root, chain[1..])
  }

  /** The `i`-th variant file is the file of the `i`-th locale of the chain. */
  lemma {:induction false} VariantFilesAt(root: string, chain: seq<string>, i: nat)
    requires i < |chain|
    ensures VariantFiles(root, chain)[i] == VariantFile(root, chain[i])
  {
    if i > 0 {
      VariantFilesAt(root, chain[1..], i - 1);
    }
  }

  function Reverse(s: seq<string>): (r: seq<string>)
    ensures |r| == |s|
    ensures forall i :: 0 <= i < |s| ==> r[i] == s[|s| - 1 - i]
  {
    if s == [] then [] else Reverse(s[1..]) + [s[0]]
  }

  function EndsWith(s: string, suffix: string): bool
  {
    |suffix| <= |s| && s[|s| - |suffix|..] == suffix
  }

  lemma {:induction false} CountBeyond(s: string, c: char, j: nat)
    requires j <= |s|
    requires forall k :: j <= k < |s| ==> s[k] != c
    ensures Count(s, c) == Count(s[..j], c)
    decreases |s|
  {
    if |s| > j {
      CountBeyond(s[..|s| - 1], c, j);
      assert s[..|s| - 1][..j] == s[..j];
    } else {
      assert s[..j] == s;
    }
  }

  /** Dropping the last `_`-segment removes exactly one `_`. */
  lemma CountAfterDrop(s: string)
    requires LastIndexOf(s, '_') >= 0
    ensures Count(SubstringBeforeLast(s), '_') + 1 == Count(s, '_')
  {
    var k := LastIndexOf(s, '_');
    CountBeyond(s, '_', k + 1);
    assert s[..k + 1][..k] == s[..k];
  }

  /**
   * The locale chain starts at the full locale, drops one trailing
   * `_`-segment per step, ends at a locale without `_`, and has one entry
   * per `_` plus one.
   */
  lemma {:induction false} LocaleChainShape(locale: string)
    ensures |LocaleChain(locale)| == Count(locale, '_') + 1
    ensures LocaleChain(locale)[0] == locale
    ensures LastIndexOf(LocaleChain(locale)[|LocaleChain(locale)| - 1], '_') == -1
    ensures forall i :: 0 <= i < |LocaleChain(locale)| - 1 ==>
      LastIndexOf(LocaleChain(locale)[i], '_') >= 0 &&
      LocaleChain(locale)[i + 1] == SubstringBeforeLast(LocaleChain(locale)[i])
    decreases |locale|
  {
    if LastIndexOf(locale, '_') == -1 {
      CountBeyond(locale, '_', 0);
    } else {
      var rest := SubstringBeforeLast(locale);
      LocaleChainShape(rest);
      CountAfterDrop(locale);
    }
  }

  /** The candidate list before `Collections.reverse`. */
  function CandidatesBeforeReverse(messageBundleName: string, locale: string): seq<string>
  {
    var root := DotsToSlashes(messageBundleName);
    VariantFiles(root, LocaleChain(locale)) + [root + ".properties"]
  }

  /**
   * The candidate files, most general first: the root file, then one file
   * per locale variant, ending with the full locale; one per `_` plus two,
   * each a `.properties` file.
   */
  lemma CandidatesShape(messageBundleName: string, locale: string)
    ensures var files := Reverse(CandidatesBeforeReverse(messageBundleName, locale));
      var root := DotsToSlashes(messageBundleName);
      && |files| == Count(locale, '_') + 2
      && files[0] == root + ".properties"
      && files[|files| - 1] == VariantFile(root, locale)
      && forall i :: 0 <= i < |files| ==> EndsWith(files[i], ".properties")
  {
    var root := DotsToSlashes(messageBundleName);
    var before := CandidatesBeforeReverse(messageBundleName, locale);
    var files := Reverse(before);
    LocaleChainShape(locale);
    forall i | 0 <= i < |files| ensures EndsWith(files[i], ".properties") {
      var k := |files| - 1 - i;
      assert files[i] == before[k];
      if k < |before| - 1 {
        VariantFilesAt(root, LocaleChain(locale), k);
        assert before[k] == (root + "_" + LocaleChain(locale)[k]) + ".properties";
      }
    }
  }

  /**
   * The `while (true)` loop of `initializeMessages`: one variant file per
   * locale it visits, starting at the full locale.
   */
  method LocaleVariantFiles(root: string, locale: string) returns (files: seq<string>)
    ensures files == VariantFiles(root, LocaleChain(locale))
  {
    ghost var all := VariantFiles(root, LocaleChain(locale));
    var variant := locale;
    files := [];
    while true
      invariant files + VariantFiles(root, LocaleChain(variant)) == all
      decreases |variant|
    {
      VariantFilesStep(root, variant);
      var file := VariantFile(root, variant);
      if LastIndexOf(variant, '_') == -1 {
        files := files + [file];
        return;
      }
      var next := SubstringBeforeLast(variant);
      assert (files + [file]) + VariantFiles(root, LocaleChain(next)) == files + ([file] + VariantFiles(root, LocaleChain(next)));
      files := files + [file];
      variant := next;
    }
  }

  /** Unfolds the variant files of a locale chain by one step. */
  lemma VariantFilesStep(root: string, variant: string)
    ensures LastIndexOf(variant, '_') == -1 ==> VariantFiles(root, LocaleChain(variant)) == [VariantFile(root, variant)]
    ensures LastIndexOf(variant, '_') >= 0 ==>
      VariantFiles(root, LocaleChain(variant)) == [VariantFile(root, variant)] + VariantFiles(root, LocaleChain(SubstringBeforeLast(variant)))
  {
    if LastIndexOf(variant, '_') >= 0 {
      var rest := LocaleChain(SubstringBeforeLast(variant));
      assert LocaleChain(variant)[1..] == rest;
    }
  }

  /**
   * The candidate list of `initializeMessages`: the locale variants, the
   * root file, then `Collections.reverse`, so the most general file comes
   * first.
   */
  method MessagePropFiles(messageBundleName: string, locale: string) returns (files: seq<string>)
    ensures files == Reverse(CandidatesBeforeReverse(messageBundleName, locale))
    ensures |files| == Count(locale, '_') + 2
    ensures files[0] == DotsToSlashes(messageBundleName) + ".properties"
    ensures files[|files| - 1] == VariantFile(DotsToSlashes(messageBundleName), locale)
  {
    var root := DotsToSlashes(messageBundleName);
    files := LocaleVariantFiles(root, locale);
    files := files + [root + ".properties"];
    files := Reverse(files);
    CandidatesShape(messageBundleName, locale);
  }

  /**
   * `messageProps` after every candidate file has been loaded into it in
   * list order; `load` returns null for a missing (or unreadable) file.
   */
  function Merge(files: seq<string>, load: string -> Option<map<string, string>>): map<string, string>
  {
    if files == [] then map[]
    else
      var before := Merge(files[..|files| - 1], load);
      match load(files[|files| - 1])
      case None => before
      case Some(props) => before + props
  }

  /** Whether the file `f` exists and defines `key`. */
  predicate Defines(load: string -> Option<map<string, string>>, f: string, key: string)
  {
    load(f).Some? && key in load(f).value
  }

  /** The index of the last file in the list that defines `key`, or -1. */
  function LastDefiner(files: seq<string>, load: string -> Option<map<string, string>>, key: string): (k: int)
    ensures -1 <= k < |files|
    ensures k >= 0 ==> Defines(load, files[k], key)
    ensures forall j :: k < j < |files| ==> !Defines(load, files[j], key)
  {
    if files == [] then -1
    else if Defines(load, files[|files| - 1], key) then |files| - 1
    else LastDefiner(files[..|files| - 1], load, key)
  }

  /**
   * A key is merged exactly when some file defines it, and it takes the
   * value of the last file in the list that defines it.
   */
  lemma {:induction false} MergeLastWins(files: seq<string>, load: string -> Option<map<string, string>>, key: string)
    ensures key in Merge(files, load) <==> LastDefiner(files, load, key) >= 0
    ensures key in Merge(files, load) ==>
      Merge(files, load)[key] == load(files[LastDefiner(files, load, key)]).value[key]
  {
    if files != [] {
      var init := files[..|files| - 1];
      MergeLastWins(init, load, key);
      var k := LastDefiner(init, load, key);
      if k >= 0 { assert files[k] == init[k]; }
    }
  }

  /** A key is merged exactly when some candidate file defines it. */
  lemma MergeDefinedKeys(files: seq<string>, load: string -> Option<map<string, string>>, key: string)
    ensures key in Merge(files, load) <==> exists i :: 0 <= i < |files| && Defines(load, files[i], key)
  {
    MergeLastWins(files, load, key);
  }

  /** The loop that loads every candidate into one `Properties` map. */
  method LoadMessageProps(files: seq<string>, load: string -> Option<map<string, string>>)
    returns (messageProps: map<string, string>)
    ensures messageProps == Merge(files, load)
  {
    messageProps := map[];
    for i := 0 to |files|
      invariant messageProps == Merge(files[..i], load)
    {
      assert files[..i + 1][..i] == files[..i];
      var input := load(files[i]);
      if input.Some? {
        messageProps := messageProps + input.value;
      }
    }
    assert files[..|files|] == files;
  }

  /**
   * A key of the most specific locale file wins over the same key in any
   * more general file.
   */
  lemma MostSpecificLocaleWins(messageBundleName: string, locale: string,
                               load: string -> Option<map<string, string>>, key: string)
    requires var files := Reverse(CandidatesBeforeReverse(messageBundleName, locale));
      load(files[|files| - 1]).Some? && key in load(files[|files| - 1]).value
    ensures var files := Reverse(CandidatesBeforeReverse(messageBundleName, locale));
      key in Merge(files, load) && Merge(files, load)[key] == load(files[|files| - 1]).value[key]
  {
    var files := Reverse(CandidatesBeforeReverse(messageBundleName, locale));
    MergeLastWins(files, load, key);
    assert LastDefiner(files, load, key) == |files| - 1;
  }

  /** `haystack.contains(needle)`. */
  predicate Contains(haystack: string, needle: string)
  {
    exists i :: 0 <= i <= |haystack| - |needle| && OccursAt(haystack, needle, i)
  }

  predicate OccursAt(haystack: string, needle: string, i: int)
    requires 0 <= i <= |haystack| - |needle|
  {
    haystack[i..i + |needle|] == needle
  }

  /** How `plugin.xml` refers to a message property: `"%key"`. */
  function PluginXmlReference(key: string): string
  {
    "\"%" + key + "\""
  }

  /**
   * The keys reported as "Unused message property": merged keys with no
   * field of that name and no `"%key"` reference in `plugin.xml`.
   */
  function UnusedProperties(messageProps: map<string, string>, fieldNames: set<string>, pluginXml: string): (unused: set<string>)
    ensures unused <= messageProps.Keys
    ensures unused !! fieldNames
    ensures forall key :: key in unused ==> !Contains(pluginXml, PluginXmlReference(key))
    ensures forall key :: key in messageProps && key !in fieldNames && !Contains(pluginXml, PluginXmlReference(key)) ==> key in unused
  {
    set key | key in messageProps && key !in fieldNames && !Contains(pluginXml, PluginXmlReference(key))
  }
}
