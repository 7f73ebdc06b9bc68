/**
 * Classpath helpers of the Gosu lab panel: which classpath entries belong
 * to the lab itself or the JDK rather than to the experiment
 * (GosuPanel.isUpperLevelClasspath), and which URLs of a class loader are
 * kept for a run (GosuPanel.getAllUrlsAboveGosuclassProtocol).  The system
 * property java.home and File.separator are parameters.
 */
module Classpath {
  import opened Common
  import opened Strings

  /** The directory of the lab's own sample experiments, written with '/'. */
  const SampleResources := "gosu-lab/src/main/resources"

  /**
   * isUpperLevelClasspath: whether a classpath entry belongs above the
   * experiment.  An entry in the sample-experiment resources, written with
   * '/', never does.
   */
  predicate IsUpperLevelClasspath(filePath: string, javaHome: string, sep: char): (r: bool)
    ensures r ==> !Contains(filePath, SampleResources)
  {
    if Contains(Replace(filePath, '\\', '/'), SampleResources) then false
    else
      SlashPathsStayLocal(filePath);
      StartsWith(filePath, Lower(javaHome)) ||
      Contains(filePath, [sep] + "gosu-lang" + [sep]) ||
      EndsWith(filePath, [sep] + "tools.jar") ||
      EndsWith(filePath, [sep] + "idea_rt.jar")
  }

  /** A sample-experiment path is local whichever separator it is written with. */
  lemma {:induction false} SampleResourcesAreLocal(filePath: string, javaHome: string, sep: char)
    requires Contains(filePath, SampleResources) || Contains(filePath, "gosu-lab\\src\\main\\resources")
    ensures !IsUpperLevelClasspath(filePath, javaHome, sep)
  {
    SampleResourcesNormalised();
    if Contains(filePath, SampleResources) {
      ContainsReplace(filePath, SampleResources, '\\', '/');
    } else {
      ContainsReplace(filePath, "gosu-lab\\src\\main\\resources", '\\', '/');
    }
  }

  /** Normalising the separators keeps a '/'-written sample-experiment path in the entry. */
  lemma SlashPathsStayLocal(filePath: string)
    ensures Contains(filePath, SampleResources) ==> Contains(Replace(filePath, '\\', '/'), SampleResources)
  {
    if Contains(filePath, SampleResources) {
      SampleResourcesNormalised();
      ContainsReplace(filePath, SampleResources, '\\', '/');
    }
  }

  /** Normalising the separators maps both spellings of the sample-experiment path to the forward-slash one. */
  lemma SampleResourcesNormalised()
    ensures Replace(SampleResources, '\\', '/') == SampleResources
    ensures Replace("gosu-lab\\src\\main\\resources", '\\', '/') == SampleResources
  {
    assert Replace(SampleResources, '\\', '/') == SampleResources;
    assert Replace("gosu-lab\\src\\main\\resources", '\\', '/') == SampleResources;
  }

  /**
   * The caller lower-cases an entry's absolute path before asking; any entry
   * under java.home (in whatever case) is then upper-level unless it is a
   * sample-experiment path.
   */
  lemma {:induction false} JdkEntriesAreUpperLevel(path: string, javaHome: string, sep: char)
    requires StartsWith(path, javaHome)
    requires !Contains(Replace(Lower(path), '\\', '/'), SampleResources)
    ensures IsUpperLevelClasspath(Lower(path), javaHome, sep)
  {
    StartsWithLower(path, javaHome);
  }

  /** The JDK and IDE jars are upper-level unless they sit in a sample-experiment path. */
  lemma {:induction false} ToolJarsAreUpperLevel(dir: string, javaHome: string, sep: char)
    requires !Contains(Replace(dir + [sep] + "tools.jar", '\\', '/'), SampleResources)
    ensures IsUpperLevelClasspath(dir + [sep] + "tools.jar", javaHome, sep)
  {
    var p := dir + [sep] + "tools.jar";
    assert p[|p| - 10..] == [sep] + "tools.jar";
  }

  /** A class-loader URL; only its protocol matters here. */
  datatype Url = Url(protocol: string, path: string)

  /** A URL served by a Gosu class protocol. */
  predicate IsGosuUrl(url: Url)
  {
    Contains(url.protocol, "gosu")
  }

  /**
   * getAllUrlsAboveGosuclassProtocol: the URLs before the first whose protocol
   * mentions "gosu", in order; nothing after that one is kept.
   */
  method UrlsAboveGosuclassProtocol(urls: seq<Url>) returns (r: seq<Url>)
    ensures |r| <= |urls| && r == urls[..|r|]
    ensures forall i :: 0 <= i < |r| ==> !IsGosuUrl(r[i])
    ensures |r| < |urls| ==> IsGosuUrl(urls[|r|])
  {
    r := [];
    var bAdd := true;
    for i := 0 to |urls|
      invariant |r| <= i && r == urls[..|r|]
      invariant forall k :: 0 <= k < |r| ==> !IsGosuUrl(r[k])
      invariant bAdd ==> |r| == i
      invariant !bAdd ==> |r| < i && IsGosuUrl(urls[|r|])
    {
      if bAdd && !IsGosuUrl(urls[i]) {
        r := r + [urls[i]];
      } else {
        bAdd := false;
      }
    }
  }

  /** The three properties above pin the kept URLs down: only one prefix has them. */
  lemma {:induction false} AboveGosuPrefixUnique(urls: seq<Url>, a: seq<Url>, b: seq<Url>)
    requires |a| <= |urls| && a == urls[..|a|] && |b| <= |urls| && b == urls[..|b|]
    requires forall i :: 0 <= i < |a| ==> !IsGosuUrl(a[i])
    requires forall i :: 0 <= i < |b| ==> !IsGosuUrl(b[i])
    requires |a| < |urls| ==> IsGosuUrl(urls[|a|])
    requires |b| < |urls| ==> IsGosuUrl(urls[|b|])
    ensures a == b
  {
  }
}
