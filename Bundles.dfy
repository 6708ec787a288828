/**
 * Resource lookup inside a plug-in bundle
 * (de.sebthom.eclipse.commons.BundleResources): an ordered list of search
 * path prefixes, normalised and de-duplicated once, then tried in order.
 *
 * The bundle itself only matters through `FileLocator.find`, which is a
 * parameter `find` here: it maps a bundle-relative path to a URL or null.
 */
module Bundles {
  import opened Common

  /** `p.replace('\\', '/')`. */
  function ReplaceBackslashes(p: string): string
  {
    ReplaceChar(p, '\\', '/')
  }

  /**
   * One search path as `initSearchPaths` stores it: the empty path stays
   * empty; any other path gets forward slashes and a trailing `/`.
   */
  function NormalizeSearchPath(p: string): (r: string)
    ensures r == [] <==> p == []
    ensures forall i :: 0 <= i < |r| ==> r[i] != '\\'
    ensures r != [] ==> r[|r| - 1] == '/'
    ensures p != [] ==> ReplaceBackslashes(p) <= r && |r| <= |p| + 1
    ensures p != [] && ReplaceBackslashes(p)[|p| - 1] == '/' ==> r == ReplaceBackslashes(p)
    ensures p != [] && ReplaceBackslashes(p)[|p| - 1] != '/' ==> r == ReplaceBackslashes(p) + "/"
  {
    if p == [] then []
    else
      var q := ReplaceBackslashes(p);
      if q[|q| - 1] == '/' then q else q + "/"
  }

  function Normalized(paths: seq<string>): (r: seq<string>)
  {
    seq(|paths|, i requires 0 <= i < |paths| => NormalizeSearchPath(paths[i]))
  }

  /** Normalising one more input path appends its normal form. */
  lemma NormalizedStep(paths: seq<string>, i: nat)
    requires i < |paths|
    ensures Normalized(paths[..i + 1]) == Normalized(paths[..i]) + [NormalizeSearchPath(paths[i])]
  {
    assert Normalized(paths[..i + 1])[i] == NormalizeSearchPath(paths[i]);
  }

  predicate NoDuplicates(s: seq<string>)
  {
    forall i, j :: 0 <= i < j < |s| ==> s[i] != s[j]
  }

  /** `LinkedHashSet.add`: append unless already present. */
  function Add(s: seq<string>, x: string): seq<string>
  {
    if x in s then s else s + [x]
  }

  /** The insertion-ordered set that adding every element of `s` in turn builds. */
  function Dedup(s: seq<string>): (r: seq<string>)
    ensures NoDuplicates(r)
    ensures forall x :: x in r <==> x in s
    ensures |r| <= |s|
  {
    if s == [] then [] else Add(Dedup(s[..|s| - 1]), s[|s| - 1])
  }

  /** The index of the first occurrence of `x` in `s`. */
  function FirstIndex(s: seq<string>, x: string): (k: nat)
    requires x in s
    ensures k < |s| && s[k] == x
    ensures forall j :: 0 <= j < k ==> s[j] != x
  {
    if s[0] == x then 0 else 1 + FirstIndex(s[1..], x)
  }

  lemma FirstIndexOfPrefix(s: seq<string>, t: seq<string>, x: string)
    requires x in s
    ensures x in s + t && FirstIndex(s + t, x) == FirstIndex(s, x)
  {
    var k := FirstIndex(s, x);
    assert (s + t)[k] == x;
  }

  /** `Dedup` keeps the elements in the order of their first occurrence. */
  lemma {:induction false} DedupKeepsFirstOccurrenceOrder(s: seq<string>)
    ensures forall i, j :: 0 <= i < j < |Dedup(s)| ==>
      FirstIndex(s, Dedup(s)[i]) < FirstIndex(s, Dedup(s)[j])
  {
    if s != [] {
      var init, last := s[..|s| - 1], s[|s| - 1];
      assert s == init + [last];
      DedupKeepsFirstOccurrenceOrder(init);
      var d, ds := Dedup(init), Dedup(s);
      forall x | x in d ensures FirstIndex(s, x) == FirstIndex(init, x) {
        FirstIndexOfPrefix(init, [last], x);
      }
      if last in d {
        assert ds == d;
      } else {
        assert last !in init;
        assert FirstIndex(s, last) == |init|;
        assert ds == d + [last];
        forall i, j | 0 <= i < j < |ds|
          ensures FirstIndex(s, ds[i]) < FirstIndex(s, ds[j])
        {
          assert ds[i] == d[i] && d[i] in d;
          if j < |d| { assert ds[j] == d[j] && d[j] in d; }
        }
      }
    }
  }

  /** The search paths that `initSearchPaths(paths)` stores. */
  function SearchPathsFor(paths: seq<string>): seq<string>
  {
    Add(Dedup(Normalized(paths)), "")
  }

  lemma NormalizedMembers(paths: seq<string>)
    ensures |Normalized(paths)| == |paths|
    ensures forall p :: p in Normalized(paths) <==> exists i :: 0 <= i < |paths| && p == NormalizeSearchPath(paths[i])
    ensures "" in Normalized(paths) <==> "" in paths
  {
    var n := Normalized(paths);
    forall p | p in n ensures exists i :: 0 <= i < |paths| && p == NormalizeSearchPath(paths[i]) {
      var i :| 0 <= i < |n| && n[i] == p;
    }
    forall i | 0 <= i < |paths| ensures NormalizeSearchPath(paths[i]) in n {
      assert n[i] == NormalizeSearchPath(paths[i]);
    }
    if "" in paths {
      var i :| 0 <= i < |paths| && paths[i] == "";
      assert n[i] == "";
    }
  }

  /**
   * The stored search paths are free of duplicates and are exactly the
   * normalised inputs plus the root `""`: at most one more entry than there
   * were inputs.
   */
  lemma SearchPathsMembers(paths: seq<string>)
    ensures NoDuplicates(SearchPathsFor(paths))
    ensures forall p :: p in SearchPathsFor(paths) <==>
      p == "" || exists i :: 0 <= i < |paths| && p == NormalizeSearchPath(paths[i])
    ensures |SearchPathsFor(paths)| <= |paths| + 1
  {
    NormalizedMembers(paths);
  }

  /**
   * The root `""` occurs in the stored search paths; it is appended last
   * only when no input entry was empty, and otherwise keeps the place of
   * the first empty entry.
   */
  lemma SearchPathsRoot(paths: seq<string>)
    ensures "" in SearchPathsFor(paths)
    ensures "" !in paths ==> SearchPathsFor(paths) == Dedup(Normalized(paths)) + [""]
    ensures "" in paths ==> SearchPathsFor(paths) == Dedup(Normalized(paths))
  {
    NormalizedMembers(paths);
  }

  /** Every stored search path is the root or ends with `/` and has no `\\`. */
  lemma SearchPathsNormalized(paths: seq<string>)
    ensures forall i :: 0 <= i < |SearchPathsFor(paths)| ==>
      var p := SearchPathsFor(paths)[i];
      p == [] || (p[|p| - 1] == '/' && forall k :: 0 <= k < |p| ==> p[k] != '\\')
  {
    NormalizedMembers(paths);
    var r := SearchPathsFor(paths);
    forall i | 0 <= i < |r|
      ensures r[i] == [] || (r[i][|r[i]| - 1] == '/' && forall k :: 0 <= k < |r[i]| ==> r[i][k] != '\\')
    {
      if r[i] != [] {
        assert r[i] in Normalized(paths);
      }
    }
  }

  /** The root-only search path list of the one-argument constructors. */
  lemma NoSearchPathsMeansRootOnly()
    ensures SearchPathsFor([]) == [""]
  {
    assert Normalized([]) == [];
  }

  /** A bundle resource locator (the bundle is reached only through `find`). */
  class BundleResources {
    var searchPaths: seq<string>

    ghost predicate Valid()
      reads this
    {
      "" in searchPaths && NoDuplicates(searchPaths)
    }

    /** `BundleResources(bundle)` and `BundleResources(plugin)`. */
    constructor ()
      ensures Valid()
      ensures searchPaths == [""]
    {
      searchPaths := [""];
    }

    /** `BundleResources(bundle, searchPaths...)` and `BundleResources(plugin, searchPaths...)`. */
    constructor WithSearchPaths(paths: seq<string>)
      ensures Valid()
      ensures searchPaths == SearchPathsFor(paths)
    {
      new;
      InitSearchPaths(paths);
    }

    method InitSearchPaths(paths: seq<string>)
      modifies this
      ensures Valid()
      ensures searchPaths == SearchPathsFor(paths)
    {
      var acc: seq<string> := [];
      for i := 0 to |paths|
        invariant acc == Dedup(Normalized(paths[..i]))
      {
        NormalizedStep(paths, i);
        var p := paths[i];
        if |p| == 0 {
          acc := Add(acc, "");
          continue;
        }
        p := ReplaceBackslashes(p);
        if p[|p| - 1] != '/' {
          p := p + "/";
        }
        assert p == NormalizeSearchPath(paths[i]);
        acc := Add(acc, p);
      }
      assert paths[..|paths|] == paths;
      acc := Add(acc, "");
      searchPaths := acc;
      SearchPathsMembers(paths);
      SearchPathsRoot(paths);
    }

    /**
     * `getURL(resourcePath)`: rejects a blank path, otherwise returns the
     * hit of the first search path, in order, under which `find` locates
     * the resource, and throws when none does.
     */
    method GetURL<U>(resourcePath: string, find: string -> Option<U>) returns (r: Result<U>)
      requires Valid()
      ensures IsBlank(resourcePath) ==> r == Throws(ArgumentCheck("resourcePath"))
      ensures r.Ok? ==>
        exists i :: 0 <= i < |searchPaths| && find(searchPaths[i] + resourcePath) == Some(r.value) &&
          forall j :: 0 <= j < i ==> find(searchPaths[j] + resourcePath).None?
      ensures !IsBlank(resourcePath) && r.Throws? ==>
        r.error == IllegalArgument("Resource not found: " + resourcePath)
        && forall i :: 0 <= i < |searchPaths| ==> find(searchPaths[i] + resourcePath).None?
      ensures !IsBlank(resourcePath) && find(resourcePath).Some? ==> r.Ok?
    {
      if IsBlank(resourcePath) {
        return Throws(ArgumentCheck("resourcePath"));
      }
      for i := 0 to |searchPaths|
        invariant forall j :: 0 <= j < i ==> find(searchPaths[j] + resourcePath).None?
      {
        var url := find(searchPaths[i] + resourcePath);
        if url.Some? {
          return Ok(url.value);
        }
      }
      assert "" + resourcePath == resourcePath;
      r := Throws(IllegalArgument("Resource not found: " + resourcePath));
    }
  }
}
