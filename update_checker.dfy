/** The version comparison of the update check (update_checker.go): versions are cut
    at '.', the shorter list is padded with "0", and the segments are compared as
    strings from the left. The HTTP request is not part of this model; what it returns
    is an input. */
module UpdateChecker {
  import opened Base
  import opened Text

  /** `k` segments "0". */
  function Zeros(k: nat): (r: seq<string>)
    ensures |r| == k && forall i :: 0 <= i < k ==> r[i] == "0"
  {
    if k == 0 then [] else Zeros(k - 1) + ["0"]
  }

  /** A segment list padded with "0" up to `n` segments (never shortened). */
  function Pad(parts: seq<string>, n: nat): (r: seq<string>)
    ensures |r| == if |parts| < n then n else |parts|
    ensures r[..|parts|] == parts
    ensures forall i :: |parts| <= i < |r| ==> r[i] == "0"
  {
    if |parts| < n then parts + Zeros(n - |parts|) else parts
  }

  /** The comparison loop on padded lists of equal length: the first segment where they
      differ decides, by Go's `>` on strings; equal lists are not newer. */
  function NewerParts(latest: seq<string>, current: seq<string>): bool
    requires |latest| == |current|
    decreases |latest|
  {
    if latest == [] then false
    else if LexLess(current[0], latest[0]) then true
    else if LexLess(latest[0], current[0]) then false
    else NewerParts(latest[1..], current[1..])
  }

  /** `isNewerVersion(latest, current)`. */
  function NewerThan(latest: string, current: string): bool {
    var latestParts := Split(latest, '.');
    var currentParts := Split(current, '.');
    var maxLen := if |currentParts| > |latestParts| then |currentParts| else |latestParts|;
    NewerParts(Pad(latestParts, maxLen), Pad(currentParts, maxLen))
  }

  /** One of the padding loops of `isNewerVersion`: "0" is appended until the list has
      `maxLen` segments. */
  method PadWithZeros(parts: seq<string>, maxLen: nat) returns (padded: seq<string>)
    ensures padded == Pad(parts, maxLen)
  {
    padded := parts;
    while |padded| < maxLen
      invariant |parts| <= |padded| && (|parts| < maxLen ==> |padded| <= maxLen)
      invariant padded == parts + Zeros(|padded| - |parts|)
      invariant maxLen <= |parts| ==> padded == parts
      decreases maxLen - |padded|
    {
      padded := padded + ["0"];
    }
  }

  /** `isNewerVersion`: split, pad both lists to the longer length with append loops,
      then walk the segments with an early return. */
  method IsNewerVersion(latest: string, current: string) returns (newer: bool)
    ensures newer == NewerThan(latest, current)
  {
    var latestParts := Split(latest, '.');
    var currentParts := Split(current, '.');

    var maxLen := |latestParts|;
    if |currentParts| > maxLen {
      maxLen := |currentParts|;
    }

    latestParts := PadWithZeros(latestParts, maxLen);
    currentParts := PadWithZeros(currentParts, maxLen);

    for i := 0 to maxLen
      invariant NewerParts(latestParts, currentParts) == NewerParts(latestParts[i..], currentParts[i..])
    {
      assert latestParts[i..][0] == latestParts[i] && currentParts[i..][0] == currentParts[i];
      if LexLess(currentParts[i], latestParts[i]) {
        return true;
      } else if LexLess(latestParts[i], currentParts[i]) {
        return false;
      }
      assert latestParts[i..][1..] == latestParts[i + 1..];
      assert currentParts[i..][1..] == currentParts[i + 1..];
    }
    return false;
  }

  /** Equal segment lists are never newer. */
  lemma {:induction false} NewerPartsIrreflexive(parts: seq<string>)
    ensures !NewerParts(parts, parts)
    decreases |parts|
  {
    if parts != [] {
      LexLessIrreflexive(parts[0]);
      NewerPartsIrreflexive(parts[1..]);
    }
  }

  /** No version is newer than itself. */
  lemma NewerThanIrreflexive(v: string)
    ensures !NewerThan(v, v)
  {
    var parts := Split(v, '.');
    NewerPartsIrreflexive(Pad(parts, |parts|));
  }

  /** Of two segment lists at most one is newer. */
  lemma {:induction false} NewerPartsAsymmetric(a: seq<string>, b: seq<string>)
    requires |a| == |b|
    ensures !(NewerParts(a, b) && NewerParts(b, a))
    decreases |a|
  {
    if a != [] {
      LexLessAsymmetric(a[0], b[0]);
      NewerPartsAsymmetric(a[1..], b[1..]);
    }
  }

  /** Of two versions at most one is newer than the other. */
  lemma NewerThanAsymmetric(a: string, b: string)
    ensures !(NewerThan(a, b) && NewerThan(b, a))
  {
    var pa, pb := Split(a, '.'), Split(b, '.');
    var m := if |pb| > |pa| then |pb| else |pa|;
    assert (if |pa| > |pb| then |pa| else |pb|) == m;
    NewerPartsAsymmetric(Pad(pa, m), Pad(pb, m));
  }

  /** The segment lists are decided at their first difference: the version whose
      segment there is greater as a string is the newer one. */
  lemma {:induction false} FirstDifferenceDecides(latest: seq<string>, current: seq<string>, i: nat)
    requires |latest| == |current| && i < |latest|
    requires latest[..i] == current[..i] && latest[i] != current[i]
    ensures NewerParts(latest, current) <==> LexLess(current[i], latest[i])
    decreases i
  {
    if i == 0 {
      LexLessTotal(latest[0], current[0]);
      LexLessAsymmetric(latest[0], current[0]);
    } else {
      assert latest[0] == latest[..i][0] && current[0] == current[..i][0];
      LexLessIrreflexive(latest[0]);
      assert latest[1..][..i - 1] == latest[..i][1..];
      assert current[1..][..i - 1] == current[..i][1..];
      FirstDifferenceDecides(latest[1..], current[1..], i - 1);
    }
  }

  /** A trailing ".0" changes nothing: the shorter version is padded with it anyway. */
  lemma TrailingZeroSegment(v: string)
    ensures !NewerThan(v + ".0", v) && !NewerThan(v, v + ".0")
  {
    var parts := Split(v, '.');
    assert v + ".0" == v + ['.'] + "0";
    SplitAfterSeparator(v, "0", '.');
    var longer := parts + ["0"];
    assert Pad(parts, |longer|) == longer by {
      assert Zeros(1) == ["0"];
    }
    assert Pad(longer, |longer|) == longer;
    NewerPartsIrreflexive(longer);
  }

  /** A version of two segments splits into them. */
  lemma SplitTwoSegments(major: string, minor: string)
    requires '.' !in major && '.' !in minor
    ensures Split(major + "." + minor, '.') == [major, minor]
  {
    SplitWithoutSeparator(major, '.');
    SplitAfterSeparator(major, minor, '.');
    assert major + "." + minor == major + ['.'] + minor;
  }

  /** Two versions of two segments with the same first segment: the second segments
      decide, compared as strings. */
  lemma SecondSegmentDecides(major: string, x: string, y: string)
    requires '.' !in major && '.' !in x && '.' !in y
    ensures NewerThan(major + "." + x, major + "." + y) <==> LexLess(y, x)
  {
    SplitTwoSegments(major, x);
    SplitTwoSegments(major, y);
    var l, c := [major, x], [major, y];
    assert Pad(l, 2) == l && Pad(c, 2) == c;
    assert NewerThan(major + "." + x, major + "." + y) == NewerParts(l, c);
    LexLessIrreflexive(major);
    assert l[1..] == [x] && c[1..] == [y];
    assert NewerParts(l, c) == NewerParts([x], [y]);
    LexLessAsymmetric(x, y);
    assert [x][1..] == [];
  }

  /** Segments compare as strings, not numbers: "1.10" is older than "1.9". */
  lemma SegmentsCompareAsStrings()
    ensures !NewerThan("1.10", "1.9") && NewerThan("1.9", "1.10")
  {
    assert "1.10" == "1" + "." + "10" && "1.9" == "1" + "." + "9";
    SecondSegmentDecides("1", "10", "9");
    SecondSegmentDecides("1", "9", "10");
    assert LexLess("10", "9");
    assert !LexLess("9", "10");
  }

  /** `strings.TrimPrefix(s, "v")`: at most one leading 'v' is removed. */
  function TrimV(s: string): (r: string)
    ensures s != [] && s[0] == 'v' ==> s == "v" + r
    ensures (s == [] || s[0] != 'v') ==> r == s
  {
    if s != [] && s[0] == 'v' then s[1..] else s
  }

  /** What the update check reports (the styled message is not part of this model). */
  datatype UpdateInfo = UpdateInfo(hasUpdate: bool, latestVersion: string, currentVersion: string)

  /** `checkForUpdates`, where `release` is the tag name of the latest release, or None
      when the request, its status or its decoding failed. Development builds are never
      checked. */
  function CheckForUpdates(version: string, release: Option<string>): (info: UpdateInfo)
    ensures info.currentVersion == TrimV(version)
    ensures version == "dev" || version == "unknown" || release.None? ==>
              info == UpdateInfo(false, "", TrimV(version))
    ensures version != "dev" && version != "unknown" && release.Some? ==>
              info.latestVersion == TrimV(release.value) &&
              (info.hasUpdate <==> NewerThan(TrimV(release.value), TrimV(version)))
  {
    var info := UpdateInfo(false, "", TrimV(version));
    if version == "dev" || version == "unknown" then info
    else match release
      case None => info
      case Some(tagName) =>
        var latestVersion := TrimV(tagName);
        var currentVersion := TrimV(version);
        info.(latestVersion := latestVersion, hasUpdate := NewerThan(latestVersion, currentVersion))
  }

  /** A release whose tag names the running version, a leading 'v' on either side
      aside, is no update. */
  lemma SameVersionNoUpdate(version: string, tagName: string)
    requires version != "dev" && version != "unknown"
    requires TrimV(tagName) == TrimV(version)
    ensures !CheckForUpdates(version, Some(tagName)).hasUpdate
  {
    NewerThanIrreflexive(TrimV(version));
  }
}
