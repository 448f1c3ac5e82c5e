/**
 * The update check of checkpoint/check.go: the version comparison it reports with, the
 * version-4 UUID it signs its requests with, and the guards, the cache lifetime and the
 * recomputed `Outdated` flag of `Check`.
 *
 * The environment variable, the cache file, the signature file and the release lookup are
 * oracles; `Check` records, in order, every one of them it consults.
 */
module Checkpoint {
  import opened Results
  import opened Strings

  // ---------------------------------------------------------------------------------------------
  // Versions

  /** A version string without one leading `v`. */
  function TrimV(version: string): string
  {
    TrimPrefix(version, "v")
  }

  /** `n` zeros. */
  function Zeros(n: nat): (z: seq<nat>)
    ensures |z| == n && forall k :: 0 <= k < n ==> z[k] == 0
  {
    seq(n, _ => 0)
  }

  /**
   * The `count` numbers that `fmt.Sscanf` reads from `s` with `count` `%d` verbs separated by
   * dots: each is a run of decimal digits; at the first run that is missing or dot that is not
   * there the scan stops, and that number and all later ones keep their zero value.
   */
  function ScanFields(s: string, count: nat): (fields: seq<nat>)
    ensures |fields| == count
    ensures s == [] || !IsDigit(s[0]) ==> fields == Zeros(count)
  {
    if count == 0 then []
    else
      var d := DigitPrefix(s);
      if d == [] then Zeros(count)
      else
        var rest := s[|d|..];
        [DigitsValue(d)] +
        (if count > 1 && rest != [] && rest[0] == '.' then ScanFields(rest[1..], count - 1) else Zeros(count - 1))
  }

  /** `parseSemver`: the major, minor and patch numbers of `s`, 0 where they cannot be read. */
  function ParseSemver(s: string): (v: seq<nat>)
    ensures |v| == 3
    ensures s == [] || !IsDigit(s[0]) ==> v == [0, 0, 0]
  {
    ScanFields(s, 3)
  }

  /** `a` comes after `b` in lexicographic order: the first place where they differ is larger in `a`. */
  predicate LexGreater(a: seq<nat>, b: seq<nat>)
    requires |a| == |b|
  {
    a != [] && (a[0] > b[0] || (a[0] == b[0] && LexGreater(a[1..], b[1..])))
  }

  /**
   * What `isNewer(latest, current)` answers: the two versions differ once a leading `v` is
   * dropped, and latest's (major, minor, patch) comes after current's.
   */
  predicate Newer(latest: string, current: string)
    ensures Newer(latest, current) ==> ParseSemver(TrimV(latest)) != ParseSemver(TrimV(current))
  {
    var l, c := TrimV(latest), TrimV(current);
    LexIrreflexive(ParseSemver(l));
    l != c && LexGreater(ParseSemver(l), ParseSemver(c))
  }

  /** `isNewer`: the loop that returns at the first component where the versions differ. */
  method IsNewer(latest: string, current: string) returns (newer: bool)
    ensures newer == Newer(latest, current)
  {
    var l := TrimPrefix(latest, "v");
    var c := TrimPrefix(current, "v");
    if l == c {
      return false;
    }
    var lp := ParseSemver(l);
    var cp := ParseSemver(c);
    for i := 0 to 3
      invariant lp[..i] == cp[..i]
      invariant LexGreater(lp, cp) == LexGreater(lp[i..], cp[i..])
    {
      assert lp[i..][1..] == lp[i + 1..] && cp[i..][1..] == cp[i + 1..];
      if lp[i] != cp[i] {
        return lp[i] > cp[i];
      }
    }
    return false;
  }

  /** No sequence comes after itself. */
  lemma {:induction false} LexIrreflexive(a: seq<nat>)
    ensures !LexGreater(a, a)
  {
    if a != [] {
      LexIrreflexive(a[1..]);
    }
  }

  /** Of two sequences, at most one comes after the other. */
  lemma {:induction false} LexAsymmetric(a: seq<nat>, b: seq<nat>)
    requires |a| == |b| && LexGreater(a, b)
    ensures !LexGreater(b, a)
  {
    if a[0] == b[0] {
      LexAsymmetric(a[1..], b[1..]);
    }
  }

  /** Coming after is transitive. */
  lemma {:induction false} LexTransitive(a: seq<nat>, b: seq<nat>, c: seq<nat>)
    requires |a| == |b| == |c| && LexGreater(a, b) && LexGreater(b, c)
    ensures LexGreater(a, c)
  {
    if a[0] == b[0] && b[0] == c[0] {
      LexTransitive(a[1..], b[1..], c[1..]);
    }
  }

  /** Of two different sequences, one comes after the other. */
  lemma {:induction false} LexTotal(a: seq<nat>, b: seq<nat>)
    requires |a| == |b| && a != b
    ensures LexGreater(a, b) || LexGreater(b, a)
  {
    if a[0] == b[0] {
      assert a[1..] != b[1..] by {
        assert a == [a[0]] + a[1..] && b == [b[0]] + b[1..];
      }
      LexTotal(a[1..], b[1..]);
    }
  }

  /** No version is newer than itself, and of two versions at most one is newer than the other. */
  lemma NewerAsymmetric(a: string, b: string)
    ensures !Newer(a, a)
    ensures Newer(a, b) ==> !Newer(b, a)
  {
    if Newer(a, b) {
      LexAsymmetric(ParseSemver(TrimV(a)), ParseSemver(TrimV(b)));
    }
  }

  /** Versions that are equal once a leading `v` is dropped are never newer than each other. */
  lemma SameVersionNotNewer(a: string, b: string)
    requires TrimV(a) == TrimV(b)
    ensures !Newer(a, b) && !Newer(b, a)
  {
  }

  /** Being newer is transitive. */
  lemma NewerTransitive(a: string, b: string, c: string)
    requires Newer(a, b) && Newer(b, c)
    ensures Newer(a, c)
  {
    var pa, pb, pc := ParseSemver(TrimV(a)), ParseSemver(TrimV(b)), ParseSemver(TrimV(c));
    LexTransitive(pa, pb, pc);
    if TrimV(a) == TrimV(c) {
      LexAsymmetric(pa, pb);
    }
  }

  /** `major.minor.patch`, written in decimal. */
  function Semver(v: seq<nat>): string
    requires |v| == 3
  {
    Itoa(v[0]) + "." + Itoa(v[1]) + "." + Itoa(v[2])
  }

  /** Digits, then text that does not go on with a digit, scan as the digits' number. */
  lemma ScanNumber(n: nat, rest: string, count: nat)
    requires count >= 1
    requires rest == [] || !IsDigit(rest[0])
    ensures ScanFields(Itoa(n) + rest, count) ==
      [n] + (if count > 1 && rest != [] && rest[0] == '.' then ScanFields(rest[1..], count - 1) else Zeros(count - 1))
  {
    DigitPrefixOf(Itoa(n), rest);
    ValueOfItoa(n);
    assert (Itoa(n) + rest)[|Itoa(n)|..] == rest;
  }

  /** A number written in decimal, then a dot and more text, scans as the number and then the text. */
  lemma ScanDotted(n: nat, rest: string, count: nat)
    requires count >= 2
    ensures ScanFields(Itoa(n) + "." + rest, count) == [n] + ScanFields(rest, count - 1)
  {
    var dotted := "." + rest;
    assert Itoa(n) + "." + rest == Itoa(n) + dotted;
    assert dotted[0] == '.' && dotted[1..] == rest;
    ScanNumber(n, dotted, count);
  }

  /** A number written in decimal scans as itself. */
  lemma ScanLast(n: nat)
    ensures ScanFields(Itoa(n), 1) == [n]
  {
    ScanNumber(n, [], 1);
    assert Itoa(n) + [] == Itoa(n);
  }

  /** `parseSemver` reads back every version written as `major.minor.patch`. */
  lemma ParseSemverOfSemver(v: seq<nat>)
    requires |v| == 3
    ensures ParseSemver(Semver(v)) == v
  {
    var tail := Itoa(v[1]) + "." + Itoa(v[2]);
    assert Semver(v) == Itoa(v[0]) + "." + tail;
    ScanDotted(v[0], tail, 3);
    ScanDotted(v[1], Itoa(v[2]), 2);
    ScanLast(v[2]);
  }

  /** Dropping a leading `v` from `v1.2.3` or `1.2.3` gives `1.2.3`. */
  lemma TrimVOfSemver(prefix: string, v: seq<nat>)
    requires |v| == 3 && prefix in {"", "v"}
    ensures TrimV(prefix + Semver(v)) == Semver(v)
  {
    var s := Semver(v);
    assert s[0] == Itoa(v[0])[0];
    if prefix == "v" {
      assert (prefix + s)[..1] == "v" && (prefix + s)[1..] == s;
    } else {
      assert prefix + s == s;
    }
  }

  /** Text that does not start with a digit reads as version 0.0.0. */
  lemma ParseSemverInvalid(s: string)
    requires s == [] || !IsDigit(s[0])
    ensures ParseSemver(s) == [0, 0, 0]
  {
  }

  /**
   * For versions written `vMAJOR.MINOR.PATCH` (or without the `v`), newer means a larger
   * (major, minor, patch) in lexicographic order.
   */
  lemma NewerOfSemvers(a: seq<nat>, b: seq<nat>, pa: string, pb: string)
    requires |a| == 3 && |b| == 3
    requires pa in {"", "v"} && pb in {"", "v"}
    ensures Newer(pa + Semver(a), pb + Semver(b)) <==> LexGreater(a, b)
  {
    TrimVOfSemver(pa, a);
    TrimVOfSemver(pb, b);
    ParseSemverOfSemver(a);
    ParseSemverOfSemver(b);
    if Semver(a) == Semver(b) {
      LexIrreflexive(a);
    }
  }

  // ---------------------------------------------------------------------------------------------
  // Version-4 UUIDs (section 4.4 of RFC 4122)

  /** `0` to `9` and `a` to `f`. */
  predicate IsHexDigit(c: char) {
    '0' <= c <= '9' || 'a' <= c <= 'f'
  }

  /** The lower-case hexadecimal digit of a nibble. */
  function HexDigit(n: bv8): (c: char)
    requires n < 16
    ensures IsHexDigit(c)
    ensures n < 10 ==> c as int == '0' as int + n as int
    ensures n >= 10 ==> c as int == 'a' as int + n as int - 10
  {
    if n < 10 then ('0' as int + n as int) as char else ('a' as int + n as int - 10) as char
  }

  /** A byte as `%02x` writes it: high nibble first. */
  function HexByte(b: bv8): (s: string)
    ensures |s| == 2
  {
    [HexDigit(b >> 4), HexDigit(b & 0x0f)]
  }

  /** A byte slice as `%x` writes it: two digits per byte, in order. */
  function Hex(bytes: seq<bv8>): (s: string)
    ensures |s| == 2 * |bytes|
    ensures forall k :: 0 <= k < |s| ==> IsHexDigit(s[k])
  {
    if bytes == [] then [] else HexByte(bytes[0]) + Hex(bytes[1..])
  }

  /** `%08x-%04x-%04x-%04x-%012x` over the byte groups 0-3, 4-5, 6-7, 8-9 and 10-15. */
  function FormatUUID(b: seq<bv8>): (s: string)
    requires |b| == 16
    ensures |s| == 36
  {
    Hex(b[0..4]) + "-" + Hex(b[4..6]) + "-" + Hex(b[6..8]) + "-" + Hex(b[8..10]) + "-" + Hex(b[10..])
  }

  /**
   * The version and variant bits: byte 6 gets version 4 in its high nibble, byte 8 gets the
   * variant bits `10` on top; every other bit of the random bytes is kept.
   */
  function Stamp(b: seq<bv8>): (u: seq<bv8>)
    requires |b| == 16
    ensures |u| == 16
    ensures u[6] >> 4 == 4 && u[6] & 0x0f == b[6] & 0x0f
    ensures u[8] >> 6 == 2 && u[8] & 0x3f == b[8] & 0x3f
    ensures forall k :: 0 <= k < 16 && k != 6 && k != 8 ==> u[k] == b[k]
  {
    b[6 := (b[6] & 0x0f) | 0x40][8 := (b[8] & 0x3f) | 0x80]
  }

  /**
   * `generateUUID`, given what `rand.Read` delivered: `None` when reading failed, which gives
   * the empty string.
   */
  method GenerateUUID(random: Option<seq<bv8>>) returns (uuid: string)
    requires random.Some? ==> |random.value| == 16
    ensures random.None? ==> uuid == ""
    ensures random.Some? ==> uuid == FormatUUID(Stamp(random.value))
  {
    if random.None? {
      return "";
    }
    var b := new bv8[16];
    forall k | 0 <= k < 16 {
      b[k] := random.value[k];
    }
    b[6] := (b[6] & 0x0f) | 0x40;
    b[8] := (b[8] & 0x3f) | 0x80;
    assert b[..] == Stamp(random.value);
    uuid := FormatUUID(b[..]);
  }

  /** Where the four hyphens of a formatted UUID are. */
  predicate HyphenAt(k: nat) {
    k == 8 || k == 13 || k == 18 || k == 23
  }

  /**
   * A formatted UUID has 36 characters: hyphens at 8, 13, 18 and 23, lower-case hexadecimal
   * digits everywhere else, so its groups are 8, 4, 4, 4 and 12 digits long.
   */
  lemma UUIDShape(b: seq<bv8>)
    requires |b| == 16
    ensures var s := FormatUUID(b);
      |s| == 36 &&
      forall k :: 0 <= k < 36 ==> if HyphenAt(k) then s[k] == '-' else IsHexDigit(s[k])
  {
    var s := FormatUUID(b);
    var h0, h1, h2, h3, h4 := Hex(b[0..4]), Hex(b[4..6]), Hex(b[6..8]), Hex(b[8..10]), Hex(b[10..]);
    assert s == h0 + "-" + h1 + "-" + h2 + "-" + h3 + "-" + h4;
    forall k | 0 <= k < 36 ensures if HyphenAt(k) then s[k] == '-' else IsHexDigit(s[k]) {
      if k < 8 { assert s[k] == h0[k]; }
      else if 8 < k < 13 { assert s[k] == h1[k - 9]; }
      else if 13 < k < 18 { assert s[k] == h2[k - 14]; }
      else if 18 < k < 23 { assert s[k] == h3[k - 19]; }
      else if 23 < k { assert s[k] == h4[k - 24]; }
    }
  }

  /** A stamped UUID reads version `4` at position 14 and a variant digit `8`, `9`, `a` or `b` at 19. */
  lemma UUIDVersion(b: seq<bv8>)
    requires |b| == 16
    ensures FormatUUID(Stamp(b))[14] == '4'
    ensures FormatUUID(Stamp(b))[19] in {'8', '9', 'a', 'b'}
  {
    var u := Stamp(b);
    var s := FormatUUID(u);
    assert s[14] == Hex(u[6..8])[0] == HexDigit(u[6] >> 4);
    assert s[19] == Hex(u[8..10])[0] == HexDigit(u[8] >> 4);
    assert 8 <= u[8] >> 4 < 12 by {
      assert u[8] >> 6 == 2;
    }
  }

  /** Different bytes give different digits: a nibble is the position of its digit. */
  lemma HexByteInjective(a: bv8, b: bv8)
    requires HexByte(a) == HexByte(b)
    ensures a == b
  {
    assert a >> 4 == b >> 4 && a & 0x0f == b & 0x0f;
    assert a == ((a >> 4) << 4) | (a & 0x0f);
    assert b == ((b >> 4) << 4) | (b & 0x0f);
  }

  lemma {:induction false} HexInjective(a: seq<bv8>, b: seq<bv8>)
    requires |a| == |b| && Hex(a) == Hex(b)
    ensures a == b
  {
    if a != [] {
      assert Hex(a)[..2] == HexByte(a[0]) && Hex(b)[..2] == HexByte(b[0]);
      assert Hex(a)[2..] == Hex(a[1..]) && Hex(b)[2..] == Hex(b[1..]);
      HexByteInjective(a[0], b[0]);
      HexInjective(a[1..], b[1..]);
      assert a == [a[0]] + a[1..] && b == [b[0]] + b[1..];
    }
  }

  /** The five digit groups of a formatted UUID, hyphens removed. */
  lemma UUIDGroups(b: seq<bv8>)
    requires |b| == 16
    ensures var s := FormatUUID(b);
      |s| == 36 &&
      s[0..8] == Hex(b[0..4]) && s[9..13] == Hex(b[4..6]) && s[14..18] == Hex(b[6..8]) &&
      s[19..23] == Hex(b[8..10]) && s[24..] == Hex(b[10..])
  {
  }

  /** The formatted UUID determines its 16 bytes: the formatting loses nothing. */
  lemma FormatUUIDInjective(a: seq<bv8>, b: seq<bv8>)
    requires |a| == 16 && |b| == 16 && FormatUUID(a) == FormatUUID(b)
    ensures a == b
  {
    UUIDGroups(a);
    UUIDGroups(b);
    assert a[0..4] == b[0..4] by { HexInjective(a[0..4], b[0..4]); }
    assert a[4..6] == b[4..6] by { HexInjective(a[4..6], b[4..6]); }
    assert a[6..8] == b[6..8] by { HexInjective(a[6..8], b[6..8]); }
    assert a[8..10] == b[8..10] by { HexInjective(a[8..10], b[8..10]); }
    assert a[10..] == b[10..] by { HexInjective(a[10..], b[10..]); }
    assert forall k :: 0 <= k < 16 ==> a[k] == b[k] by {
      forall k | 0 <= k < 16 ensures a[k] == b[k] {
        if k < 4 { assert a[k] == a[0..4][k] && b[k] == b[0..4][k]; }
        else if k < 6 { assert a[k] == a[4..6][k - 4] && b[k] == b[4..6][k - 4]; }
        else if k < 8 { assert a[k] == a[6..8][k - 6] && b[k] == b[6..8][k - 6]; }
        else if k < 10 { assert a[k] == a[8..10][k - 8] && b[k] == b[8..10][k - 8]; }
        else { assert a[k] == a[10..][k - 10] && b[k] == b[10..][k - 10]; }
      }
    }
  }

  // ---------------------------------------------------------------------------------------------
  // Check

  /** One hour in nanoseconds, the unit of `time.Duration`. */
  const Hour: int := 3_600_000_000_000

  /** `DefaultCacheDuration`: 48 hours. */
  const DefaultCacheDuration: int := 48 * Hour

  const ProjectWebsite: string := "https://github.com/ademajagon/gix"

  datatype CheckParams = CheckParams(product: string, version: string, signatureFile: string,
                                     cacheFile: string, cacheDuration: int)

  datatype CheckResponse = CheckResponse(product: string, currentVersion: string,
                                         currentDownloadURL: string, projectWebsite: string,
                                         outdated: bool)

  /** The fields of the latest release that the lookup decodes. */
  datatype Release = Release(tagName: string, htmlURL: string)

  /**
   * What `Check` consults, in order: the cache file (with the lifetime it allows), the
   * signature file, the release lookup (with the product, version and signature it reports),
   * and the cache file it rewrites.
   */
  datatype Effect =
    | ReadCache(path: string, ttl: int)
    | ReadSignature(path: string)
    | Fetch(product: string, version: string, sig: string)
    | WriteCache(path: string, response: CheckResponse)

  /**
   * The outside world `Check` sees: the value of `GIX_CHECKPOINT_DISABLE`, the cached response
   * still within its lifetime (`readCache`), the signature (`readOrCreateSignature`) and the
   * latest release (`fetchLatestRelease` up to decoding).
   */
  datatype World = World(disable: string,
                         cached: (string, int) -> Option<CheckResponse>,
                         signature: string -> string,
                         latest: (string, string, string) -> Result<Release, string>)

  /** Builds that never check for updates. */
  predicate Unreleased(version: string) {
    var v := TrimV(version);
    v == "dev" || v == "ci" || v == ""
  }

  /** The cache lifetime: the configured one, or 48 hours when it is zero. */
  function CacheLifetime(p: CheckParams): (ttl: int)
    ensures p.cacheDuration != 0 ==> ttl == p.cacheDuration
    ensures p.cacheDuration == 0 ==> ttl == 48 * Hour
  {
    if p.cacheDuration == 0 then DefaultCacheDuration else p.cacheDuration
  }

  /**
   * `Check`. Disabled or unreleased builds consult nothing and report nothing. Otherwise a
   * cached response is returned with `Outdated` recomputed against the running version and
   * nothing else happens; without one, the latest release is looked up, and a response built
   * from it is written to the cache and returned, or the lookup's error is returned and nothing
   * is written. Every response returned is outdated exactly when the version it reports is
   * newer than the running one.
   */
  method Check(p: CheckParams, w: World) returns (r: Result<Option<CheckResponse>, string>, effects: seq<Effect>)
    ensures w.disable != "" || Unreleased(p.version) ==> r == Ok(None) && effects == []
    ensures !(w.disable != "" || Unreleased(p.version)) ==>
      |effects| >= 1 && effects[0] == ReadCache(p.cacheFile, CacheLifetime(p))
    ensures r.Ok? && r.value.Some? ==> r.value.value.outdated == Newer(r.value.value.currentVersion, p.version)
    ensures effects != [] && w.cached(p.cacheFile, CacheLifetime(p)).Some? ==>
      var c := w.cached(p.cacheFile, CacheLifetime(p)).value;
      r == Ok(Some(c.(outdated := Newer(c.currentVersion, p.version)))) && |effects| == 1
    ensures effects != [] && w.cached(p.cacheFile, CacheLifetime(p)).None? ==>
      var sig := w.signature(p.signatureFile);
      var release := w.latest(p.product, p.version, sig);
      |effects| >= 3 &&
      effects[1] == ReadSignature(p.signatureFile) && effects[2] == Fetch(p.product, p.version, sig) &&
      (release.Err? ==> r == Err(release.error) && |effects| == 3) &&
      (release.Ok? ==>
        r.Ok? && r.value.Some? &&
        r.value.value == CheckResponse(p.product, release.value.tagName, release.value.htmlURL,
                                       ProjectWebsite, Newer(release.value.tagName, p.version)) &&
        effects == effects[..3] + [WriteCache(p.cacheFile, r.value.value)])
  {
    effects := [];
    if w.disable != "" {
      return Ok(None), effects;
    }
    var v := TrimPrefix(p.version, "v");
    if v == "dev" || v == "ci" || v == "" {
      return Ok(None), effects;
    }
    var ttl := p.cacheDuration;
    if ttl == 0 {
      ttl := DefaultCacheDuration;
    }
    effects := effects + [ReadCache(p.cacheFile, ttl)];
    var cached := w.cached(p.cacheFile, ttl);
    if cached.Some? {
      var outdated := IsNewer(cached.value.currentVersion, p.version);
      return Ok(Some(cached.value.(outdated := outdated))), effects;
    }
    effects := effects + [ReadSignature(p.signatureFile)];
    var sig := w.signature(p.signatureFile);
    effects := effects + [Fetch(p.product, p.version, sig)];
    var release := w.latest(p.product, p.version, sig);
    if release.Err? {
      return Err(release.error), effects;
    }
    var outdated := IsNewer(release.value.tagName, p.version);
    var resp := CheckResponse(p.product, release.value.tagName, release.value.htmlURL, ProjectWebsite, outdated);
    effects := effects + [WriteCache(p.cacheFile, resp)];
    return Ok(Some(resp)), effects;
  }
}
