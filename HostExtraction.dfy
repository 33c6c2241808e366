/**
 * The extraction of first-party Google hosts from the manifest's content
 * scripts: the first entry that loads the Google first-party script is
 * chosen, its match patterns that are https://www. followed by a host and the path wildcard are kept, and
 * each is cut down to the host by dropping the scheme and the wildcard.
 */
module HostExtraction {
  import opened Wrappers

  /** A manifest content-script entry: the scripts it loads and the patterns it matches. */
  datatype ContentScript = ContentScript(js: seq<string>, matches: seq<string>)

  const GOOGLE_SCRIPT := "js/firstparties/google.js"
  const WWW_PREFIX := "https://www."
  const WILDCARD_SUFFIX := "/*"

  predicate StartsWith(s: string, prefix: string) {
    |prefix| <= |s| && s[..|prefix|] == prefix
  }

  predicate EndsWith(s: string, suffix: string) {
    |suffix| <= |s| && s[|s| - |suffix|..] == suffix
  }

  /** A JavaScript slice index: negative counts from the end; the result is clamped to 0..len. */
  function SliceIndex(len: nat, index: int): (r: nat)
    ensures r <= len
    ensures 0 <= index <= len ==> r == index
    ensures index < 0 && 0 <= len + index ==> r == len + index
    ensures index > len ==> r == len
    ensures len + index < 0 ==> r == 0
  {
    if index < 0 then (if len + index < 0 then 0 else len + index)
    else if index > len then len
    else index
  }

  /** String.prototype.slice(start, end); an omitted end is |s|. */
  function Slice(s: string, start: int, end: int): (r: string)
    ensures |r| <= |s|
    ensures 0 <= start <= end <= |s| ==> r == s[start..end]
    ensures 0 <= end <= start ==> r == []
  {
    var from := SliceIndex(|s|, start);
    var to := SliceIndex(|s|, end);
    if from < to then s[from..to] else []
  }

  /** The filter's test: the pattern starts with https://www. and ends with the path wildcard. */
  predicate IsWwwPattern(p: string) {
    StartsWith(p, WWW_PREFIX) && EndsWith(p, WILDCARD_SUFFIX)
  }

  /** The map's step: p.slice(8).slice(0, -2). */
  function HostOf(p: string): (r: string)
    ensures |p| >= 10 ==> r == p[8..|p| - 2]
    ensures |p| < 10 ==> r == []
  {
    var withoutScheme := Slice(p, 8, |p|);
    Slice(withoutScheme, 0, -2)
  }

  /** Array.prototype.find over the content scripts, as the index of the first hit. */
  function FirstGoogleEntry(scripts: seq<ContentScript>): (r: Option<nat>)
    ensures r.Some? ==>
      r.value < |scripts| && GOOGLE_SCRIPT in scripts[r.value].js &&
      forall j :: 0 <= j < r.value ==> GOOGLE_SCRIPT !in scripts[j].js
    ensures r.None? <==> forall j :: 0 <= j < |scripts| ==> GOOGLE_SCRIPT !in scripts[j].js
  {
    if scripts == [] then None
    else if GOOGLE_SCRIPT in scripts[0].js then Some(0)
    else match FirstGoogleEntry(scripts[1..])
      case None => None
      case Some(k) => Some(k + 1)
  }

  /** The filter: the www patterns of `matches`, in order, duplicates included. */
  function KeepWwwPatterns(matches: seq<string>): (r: seq<string>)
    ensures |r| <= |matches|
  {
    if matches == [] then []
    else (if IsWwwPattern(matches[0]) then [matches[0]] else []) + KeepWwwPatterns(matches[1..])
  }

  /** The map: every kept pattern cut down to its host. */
  function HostsOf(patterns: seq<string>): (r: seq<string>)
    ensures |r| == |patterns|
  {
    if patterns == [] then [] else [HostOf(patterns[0])] + HostsOf(patterns[1..])
  }

  /** The hosts of one list of match patterns: the filter followed by the map. */
  function ExtractHosts(matches: seq<string>): (r: seq<string>)
    ensures |r| <= |matches|
  {
    HostsOf(KeepWwwPatterns(matches))
  }

  /**
   * The whole chain in main: None where no content script loads the Google
   * script, which is where the source dereferences undefined and stops.
   */
  function GoogleHosts(scripts: seq<ContentScript>): (r: Option<seq<string>>)
    ensures r.None? <==> forall j :: 0 <= j < |scripts| ==> GOOGLE_SCRIPT !in scripts[j].js
    ensures r.Some? ==>
      exists k :: 0 <= k < |scripts| &&
        GOOGLE_SCRIPT in scripts[k].js &&
        (forall j :: 0 <= j < k ==> GOOGLE_SCRIPT !in scripts[j].js) &&
        r.value == ExtractHosts(scripts[k].matches)
  {
    match FirstGoogleEntry(scripts)
    case None => None
    case Some(k) => Some(ExtractHosts(scripts[k].matches))
  }

  /** How a host is put back into a match pattern. */
  function Rebuild(host: string): string {
    "https://" + host + WILDCARD_SUFFIX
  }

  /**
   * On a www pattern the two slices drop exactly the scheme and the
   * wildcard, so the host keeps its www. and rebuilds the pattern.
   */
  lemma HostOfWwwPattern(p: string)
    requires IsWwwPattern(p)
    ensures |p| >= 14
    ensures HostOf(p) == p[8..|p| - 2]
    ensures StartsWith(HostOf(p), "www.")
    ensures Rebuild(HostOf(p)) == p
  {
    assert p[..12] == WWW_PREFIX;
    assert p[|p| - 2..] == WILDCARD_SUFFIX;
    // the prefix ends in "w.", so the suffix's '/' lies beyond it
    assert p[10] == 'w' && p[11] == '.';
    assert p[|p| - 2] == '/';
    var h := HostOf(p);
    assert h == p[8..|p| - 2];
    assert h[..4] == p[8..12];
    assert Rebuild(h) == p[..8] + h + p[|p| - 2..];
    assert p == p[..8] + p[8..|p| - 2] + p[|p| - 2..];
  }

  /** The filter distributes over concatenation: it keeps order and multiplicity. */
  lemma {:induction false} KeepWwwPatternsConcat(a: seq<string>, b: seq<string>)
    ensures KeepWwwPatterns(a + b) == KeepWwwPatterns(a) + KeepWwwPatterns(b)
  {
    if a == [] {
      assert a + b == b;
    } else {
      assert (a + b)[1..] == a[1..] + b;
      KeepWwwPatternsConcat(a[1..], b);
    }
  }

  /** The map distributes over concatenation. */
  lemma {:induction false} HostsOfConcat(a: seq<string>, b: seq<string>)
    ensures HostsOf(a + b) == HostsOf(a) + HostsOf(b)
  {
    if a == [] {
      assert a + b == b;
    } else {
      assert (a + b)[1..] == a[1..] + b;
      HostsOfConcat(a[1..], b);
    }
  }

  /** Hence extraction distributes over concatenation: input order is kept, nothing is deduplicated. */
  lemma ExtractHostsConcat(a: seq<string>, b: seq<string>)
    ensures ExtractHosts(a + b) == ExtractHosts(a) + ExtractHosts(b)
  {
    KeepWwwPatternsConcat(a, b);
    HostsOfConcat(KeepWwwPatterns(a), KeepWwwPatterns(b));
  }

  /** A www pattern listed twice yields its host twice. */
  lemma ExtractHostsKeepsDuplicates(p: string)
    requires IsWwwPattern(p)
    ensures ExtractHosts([p, p]) == [HostOf(p), HostOf(p)]
  {
    assert [p, p] == [p] + [p];
    ExtractHostsConcat([p], [p]);
    assert [p][1..] == [];
    assert KeepWwwPatterns([p]) == [p];
    assert HostsOf([p]) == [HostOf(p)];
  }

  /** Every kept pattern is a www pattern taken from the input. */
  lemma {:induction false} KeepWwwPatternsSound(matches: seq<string>)
    ensures forall p :: p in KeepWwwPatterns(matches) ==> p in matches && IsWwwPattern(p)
  {
    if matches != [] {
      KeepWwwPatternsSound(matches[1..]);
    }
  }

  /** Every www pattern of the input is kept. */
  lemma {:induction false} KeepWwwPatternsComplete(matches: seq<string>)
    ensures forall p :: p in matches && IsWwwPattern(p) ==> p in KeepWwwPatterns(matches)
  {
    if matches != [] {
      KeepWwwPatternsComplete(matches[1..]);
      assert matches == [matches[0]] + matches[1..];
    }
  }

  /** Putting the hosts back into patterns gives exactly the kept patterns, in order. */
  lemma {:induction false} RebuildExtractHosts(matches: seq<string>)
    ensures var hosts := ExtractHosts(matches);
      forall k :: 0 <= k < |hosts| ==> Rebuild(hosts[k]) == KeepWwwPatterns(matches)[k]
  {
    var kept := KeepWwwPatterns(matches);
    var hosts := ExtractHosts(matches);
    forall k | 0 <= k < |hosts|
      ensures Rebuild(hosts[k]) == kept[k]
    {
      HostsOfAt(kept, k);
      KeepWwwPatternsSound(matches);
      assert kept[k] in kept;
      HostOfWwwPattern(kept[k]);
    }
  }

  /** Element k of the map is the host of pattern k. */
  lemma {:induction false} HostsOfAt(patterns: seq<string>, k: int)
    requires 0 <= k < |patterns|
    ensures HostsOf(patterns)[k] == HostOf(patterns[k])
  {
    if k > 0 {
      HostsOfAt(patterns[1..], k - 1);
    }
  }

  /**
   * A string is an extracted host exactly when it starts with www. and the
   * pattern it rebuilds is among the matches.
   */
  lemma ExtractHostsMembership(matches: seq<string>, h: string)
    ensures h in ExtractHosts(matches) <==> StartsWith(h, "www.") && Rebuild(h) in matches
  {
    var kept := KeepWwwPatterns(matches);
    var hosts := ExtractHosts(matches);
    KeepWwwPatternsSound(matches);
    KeepWwwPatternsComplete(matches);
    if h in hosts {
      var k :| 0 <= k < |hosts| && hosts[k] == h;
      HostsOfAt(kept, k);
      assert kept[k] in kept;
      HostOfWwwPattern(kept[k]);
    }
    if StartsWith(h, "www.") && Rebuild(h) in matches {
      var p := Rebuild(h);
      assert p[..12] == WWW_PREFIX by {
        assert p[..12] == "https://" + h[..4];
      }
      assert p[|p| - 2..] == WILDCARD_SUFFIX;
      assert IsWwwPattern(p);
      var k :| 0 <= k < |kept| && kept[k] == p;
      HostsOfAt(kept, k);
      HostOfWwwPattern(p);
      assert p[8..|p| - 2] == h;
      assert hosts[k] == h;
    }
  }
}
