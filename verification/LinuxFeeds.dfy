/** The gate on a Linux release: two update feeds, each with a stable and a beta
    manifest, and the bridge build that is published on the old feed once. */
module LinuxFeeds {
  import opened Basics

  type Bytes = string

  /** The fields of a signed object, as far as they are there; `bare` when it has
      no fields at all. */
  datatype Fields = Fields(
    platform: Option<string>, sha256: Option<string>, size: Option<nat>, version: Option<string>,
    floor: Option<string>, url: Option<string>, bare: bool)

  const BARE := Fields(None, None, None, None, None, None, true)

  type Payload = p: Fields | p.bare ==> p == BARE
    witness BARE

  /** `if p`: read, and not the empty object. */
  predicate Truthy(p: Option<Payload>) { p.Some? && !p.value.bare }

  /** What a binary says of itself. */
  datatype Identity = Identity(
    platform: Option<string>, version: Option<string>, variant: Option<string>, compiledFloor: Option<string>)

  /** The world outside: hashing, parsing a manifest, scanning a binary for the
      markers of unpublished builds (None when it cannot be read), asking it. */
  datatype Env = Env(
    sha: Bytes -> string, parse: Bytes -> Option<Payload>, scan: Bytes -> Option<nat>, ask: Bytes -> Option<Identity>)

  datatype Feed = V2 | V2Beta | V1 | V1Beta

  datatype Failure =
    | Unreadable(feed: Feed) | Marker(feed: Feed) | NotScannable(feed: Feed) | NoIdentity(feed: Feed)
    | ManifestPlatform(feed: Feed) | BinaryPlatform(feed: Feed) | HashMismatch(feed: Feed) | SizeMismatch(feed: Feed)
    | VersionMismatch(feed: Feed) | WrongVariant(feed: Feed) | NoFloor(feed: Feed) | BridgeFloor(feed: Feed)
    | StrictFloor(feed: Feed) | BetaFloorDiffers | BothModes | HalfFrozen | ManifestChanged(feed: Feed) | NoMode
    | NotTheBridgeRelease(feed: Feed) | VersionsDiffer | FloorDiffers(feed: Feed) | SharedUrl

  const BRIDGE_FLOOR := "2.52.5"
  const BRIDGE_RELEASE := "1.0.6"
  const PLATFORM := "linux-x86_64"
  const STRICT := "strict"
  const BRIDGE := "bridge"

  /** A string option that is given and not empty. */
  predicate Given(o: Option<string>) { o.Some? && o.value != "" }

  /** The list with one more failure when the condition holds. */
  function Add(fs: seq<Failure>, c: bool, f: Failure): (r: seq<Failure>)
    ensures r == [] <==> fs == [] && !c
  {
    if c then fs + [f] else fs
  }

  function AddCopies(fs: seq<Failure>, f: Failure, n: nat): (r: seq<Failure>)
    ensures r == [] <==> fs == [] && n == 0
  {
    if n == 0 then fs else AddCopies(fs, f, n - 1) + [f]
  }

  // ---- one feed ----------------------------------------------------------

  function AfterScan(env: Env, fs: seq<Failure>, feed: Feed, binary: Bytes): seq<Failure> {
    var found := env.scan(binary);
    if found.None? then fs + [NotScannable(feed)] else AddCopies(fs, Marker(feed), found.value)
  }

  function AfterDescription(env: Env, fs: seq<Failure>, feed: Feed, p: Payload, binary: Bytes, id: Identity): seq<Failure> {
    var fs := Add(fs, p.platform != Some(PLATFORM), ManifestPlatform(feed));
    var fs := Add(fs, id.platform != Some(PLATFORM), BinaryPlatform(feed));
    var fs := Add(fs, p.sha256 != Some(env.sha(binary)), HashMismatch(feed));
    var fs := Add(fs, p.size != Some(|binary|), SizeMismatch(feed));
    Add(fs, p.version != id.version, VersionMismatch(feed))
  }

  function AfterMapping(
    env: Env, fs: seq<Failure>, feed: Feed, p: Payload, binary: Bytes, id: Identity, variant: string): seq<Failure>
  {
    var fs := AfterDescription(env, fs, feed, p, binary, id);
    var fs := Add(fs, id.variant != Some(variant), WrongVariant(feed));
    var fs := Add(fs, !Given(p.floor), NoFloor(feed));
    var fs := Add(fs, variant == BRIDGE && id.compiledFloor != Some(BRIDGE_FLOOR), BridgeFloor(feed));
    Add(fs, variant == STRICT && Given(p.floor) && id.compiledFloor != p.floor, StrictFloor(feed))
  }

  function AfterFeed(env: Env, fs: seq<Failure>, feed: Feed, manifest: Bytes, binary: Bytes, variant: string): seq<Failure> {
    var p := env.parse(manifest);
    if p.None? then fs + [Unreadable(feed)]
    else
      var fs := AfterScan(env, fs, feed, binary);
      var id := env.ask(binary);
      if id.None? then fs + [NoIdentity(feed)] else AfterMapping(env, fs, feed, p.value, binary, id.value, variant)
  }

  // ---- the release -------------------------------------------------------

  datatype Release = Release(
    v2: Bytes, v2Beta: Bytes, v2Binary: Bytes, v1: Bytes, v1Beta: Bytes,
    v1Binary: Option<Bytes>, frozen: Option<string>, betaFrozen: Option<string>)

  predicate IsFrozen(r: Release) { Given(r.frozen) || Given(r.betaFrozen) }

  function AfterFrozen(env: Env, fs: seq<Failure>, r: Release): seq<Failure> {
    if !(Given(r.frozen) && Given(r.betaFrozen)) then fs + [HalfFrozen]
    else
      var fs := Add(fs, env.sha(r.v1) != Lower(r.frozen.value), ManifestChanged(V1));
      Add(fs, env.sha(r.v1Beta) != Lower(r.betaFrozen.value), ManifestChanged(V1Beta))
  }

  function FloorOf(p: Option<Payload>): Option<string> { if p.Some? then p.value.floor else None }

  function VersionOf(p: Option<Payload>): Option<string> { if p.Some? then p.value.version else None }

  function AfterCross(fs: seq<Failure>, v1: Payload, v1b: Payload, v2: Payload, v2b: Payload): seq<Failure> {
    var fs := Add(fs, v1.version != v2.version, VersionsDiffer);
    var fs := Add(fs, Given(v1.floor) && Given(v2.floor) && v1.floor != v2.floor, FloorDiffers(V1));
    var fs := Add(fs, Given(v1b.floor) && Given(v2.floor) && v1b.floor != v2.floor, FloorDiffers(V1Beta));
    Add(fs, {v1.url, v1b.url} * {v2.url, v2b.url} != {}, SharedUrl)
  }

  function AfterBridge(env: Env, fs: seq<Failure>, r: Release): seq<Failure>
    requires r.v1Binary.Some?
  {
    var v1, v1b, v2, v2b := env.parse(r.v1), env.parse(r.v1Beta), env.parse(r.v2), env.parse(r.v2Beta);
    var fs := AfterFeed(env, fs, V1, r.v1, r.v1Binary.value, BRIDGE);
    var fs := AfterFeed(env, fs, V1Beta, r.v1Beta, r.v1Binary.value, BRIDGE);
    var fs := Add(fs, Truthy(v1) && v1.value.version != Some(BRIDGE_RELEASE), NotTheBridgeRelease(V1));
    var fs := Add(fs, Truthy(v1b) && v1b.value.version != Some(BRIDGE_RELEASE), NotTheBridgeRelease(V1Beta));
    if Truthy(v1) && Truthy(v1b) && Truthy(v2) && Truthy(v2b) then
      AfterCross(fs, v1.value, v1b.value, v2.value, v2b.value)
    else fs
  }

  function AfterOldFeed(env: Env, fs: seq<Failure>, r: Release): seq<Failure> {
    if IsFrozen(r) && Given(r.v1Binary) then fs + [BothModes]
    else if IsFrozen(r) then AfterFrozen(env, fs, r)
    else if !Given(r.v1Binary) then fs + [NoMode]
    else AfterBridge(env, fs, r)
  }

  function AfterRelease(env: Env, fs: seq<Failure>, r: Release): seq<Failure> {
    var v2, v2b := env.parse(r.v2), env.parse(r.v2Beta);
    var fs := AfterFeed(env, fs, V2, r.v2, r.v2Binary, STRICT);
    var fs := AfterFeed(env, fs, V2Beta, r.v2Beta, r.v2Binary, STRICT);
    var fs := Add(fs, Truthy(v2) && Truthy(v2b) && FloorOf(v2) != FloorOf(v2b), BetaFloorDiffers);
    AfterOldFeed(env, fs, r)
  }

  predicate Accepted(env: Env, r: Release) { AfterRelease(env, [], r) == [] }

  /** The gate: failures are collected, and the exit is zero when there are none. */
  class Gate {
    var failures: seq<Failure>

    constructor ()
      ensures failures == []
    {
      failures := [];
    }

    method Refuse(c: bool, f: Failure)
      modifies this
      ensures failures == Add(old(failures), c, f)
    {
      if c { failures := failures + [f]; }
    }

    method CheckFeed(env: Env, feed: Feed, manifest: Bytes, binary: Bytes, variant: string)
      returns (p: Option<Payload>)
      modifies this
      ensures failures == AfterFeed(env, old(failures), feed, manifest, binary, variant)
      ensures p == env.parse(manifest)
    {
      p := env.parse(manifest);
      if p.None? {
        failures := failures + [Unreadable(feed)];
        return;
      }
      ScanBinary(env, feed, binary);
      var id := env.ask(binary);
      if id.None? {
        failures := failures + [NoIdentity(feed)];
        return;
      }
      CheckMapping(env, feed, p.value, binary, id.value, variant);
    }

    method ScanBinary(env: Env, feed: Feed, binary: Bytes)
      modifies this
      ensures failures == AfterScan(env, old(failures), feed, binary)
    {
      var found := env.scan(binary);
      if found.None? {
        failures := failures + [NotScannable(feed)];
        return;
      }
      for n := 0 to found.value
        invariant failures == AddCopies(old(failures), Marker(feed), n)
      {
        failures := failures + [Marker(feed)];
      }
    }

    method CheckDescription(env: Env, feed: Feed, p: Payload, binary: Bytes, id: Identity)
      modifies this
      ensures failures == AfterDescription(env, old(failures), feed, p, binary, id)
    {
      Refuse(p.platform != Some(PLATFORM), ManifestPlatform(feed));
      Refuse(id.platform != Some(PLATFORM), BinaryPlatform(feed));
      Refuse(p.sha256 != Some(env.sha(binary)), HashMismatch(feed));
      Refuse(p.size != Some(|binary|), SizeMismatch(feed));
      Refuse(p.version != id.version, VersionMismatch(feed));
    }

    method CheckMapping(env: Env, feed: Feed, p: Payload, binary: Bytes, id: Identity, variant: string)
      modifies this
      ensures failures == AfterMapping(env, old(failures), feed, p, binary, id, variant)
    {
      CheckDescription(env, feed, p, binary, id);
      Refuse(id.variant != Some(variant), WrongVariant(feed));
      Refuse(!Given(p.floor), NoFloor(feed));
      Refuse(variant == BRIDGE && id.compiledFloor != Some(BRIDGE_FLOOR), BridgeFloor(feed));
      Refuse(variant == STRICT && Given(p.floor) && id.compiledFloor != p.floor, StrictFloor(feed));
    }

    method CheckRelease(env: Env, r: Release) returns (exit: nat)
      modifies this
      ensures failures == AfterRelease(env, old(failures), r)
      ensures exit == if failures == [] then 0 else 1
    {
      var v2 := CheckFeed(env, V2, r.v2, r.v2Binary, STRICT);
      var v2b := CheckFeed(env, V2Beta, r.v2Beta, r.v2Binary, STRICT);
      Refuse(Truthy(v2) && Truthy(v2b) && FloorOf(v2) != FloorOf(v2b), BetaFloorDiffers);
      if IsFrozen(r) && Given(r.v1Binary) {
        failures := failures + [BothModes];
      } else if IsFrozen(r) {
        if !(Given(r.frozen) && Given(r.betaFrozen)) {
          failures := failures + [HalfFrozen];
        } else {
          Refuse(env.sha(r.v1) != Lower(r.frozen.value), ManifestChanged(V1));
          Refuse(env.sha(r.v1Beta) != Lower(r.betaFrozen.value), ManifestChanged(V1Beta));
        }
      } else if !Given(r.v1Binary) {
        failures := failures + [NoMode];
      } else {
        CheckBridge(env, r, v2, v2b);
      }
      return if failures == [] then 0 else 1;
    }

    method CheckBridge(env: Env, r: Release, v2: Option<Payload>, v2b: Option<Payload>)
      requires r.v1Binary.Some? && v2 == env.parse(r.v2) && v2b == env.parse(r.v2Beta)
      modifies this
      ensures failures == AfterBridge(env, old(failures), r)
    {
      var v1 := CheckFeed(env, V1, r.v1, r.v1Binary.value, BRIDGE);
      var v1b := CheckFeed(env, V1Beta, r.v1Beta, r.v1Binary.value, BRIDGE);
      Refuse(Truthy(v1) && v1.value.version != Some(BRIDGE_RELEASE), NotTheBridgeRelease(V1));
      Refuse(Truthy(v1b) && v1b.value.version != Some(BRIDGE_RELEASE), NotTheBridgeRelease(V1Beta));
      if Truthy(v1) && Truthy(v1b) && Truthy(v2) && Truthy(v2b) {
        Refuse(v1.value.version != v2.value.version, VersionsDiffer);
        Refuse(Given(v1.value.floor) && Given(v2.value.floor) && v1.value.floor != v2.value.floor, FloorDiffers(V1));
        Refuse(Given(v1b.value.floor) && Given(v2.value.floor) && v1b.value.floor != v2.value.floor,
               FloorDiffers(V1Beta));
        Refuse({v1.value.url, v1b.value.url} * {v2.value.url, v2b.value.url} != {}, SharedUrl);
      }
    }
  }

  // ---- what is accepted ---------------------------------------------

  /** A feed that passes: the manifest describes this very binary, the binary is
      of the variant asked for, and the floors agree as that variant demands. */
  ghost predicate FeedOk(env: Env, manifest: Bytes, binary: Bytes, variant: string) {
    var p, id := env.parse(manifest), env.ask(binary);
    && p.Some? && id.Some? && env.scan(binary) == Some(0)
    && p.value.sha256 == Some(env.sha(binary)) && p.value.size == Some(|binary|)
    && p.value.platform == Some(PLATFORM) == id.value.platform
    && p.value.version == id.value.version && id.value.variant == Some(variant)
    && Given(p.value.floor)
    && (variant == BRIDGE ==> id.value.compiledFloor == Some(BRIDGE_FLOOR))
    && (variant == STRICT ==> id.value.compiledFloor == p.value.floor)
  }

  lemma FeedOkIff(env: Env, fs: seq<Failure>, feed: Feed, manifest: Bytes, binary: Bytes, variant: string)
    ensures AfterFeed(env, fs, feed, manifest, binary, variant) == [] <==>
            fs == [] && FeedOk(env, manifest, binary, variant)
  {
    var p, id := env.parse(manifest), env.ask(binary);
    if p.Some? && id.Some? {
      MappingIff(env, AfterScan(env, fs, feed, binary), feed, p.value, binary, id.value, variant);
    }
  }

  lemma MappingIff(env: Env, fs: seq<Failure>, feed: Feed, p: Payload, binary: Bytes, id: Identity, variant: string)
    ensures AfterMapping(env, fs, feed, p, binary, id, variant) == [] <==>
            && fs == []
            && p.platform == Some(PLATFORM) == id.platform
            && p.sha256 == Some(env.sha(binary)) && p.size == Some(|binary|)
            && p.version == id.version && id.variant == Some(variant) && Given(p.floor)
            && (variant == BRIDGE ==> id.compiledFloor == Some(BRIDGE_FLOOR))
            && (variant == STRICT ==> id.compiledFloor == p.floor)
  {}

  /** The old feed frozen: both recorded hashes are given and both match. */
  ghost predicate FrozenOk(env: Env, r: Release) {
    && Given(r.frozen) && Given(r.betaFrozen) && !Given(r.v1Binary)
    && env.sha(r.v1) == Lower(r.frozen.value) && env.sha(r.v1Beta) == Lower(r.betaFrozen.value)
  }

  /** The old feed re-signed for the bridge: version 1.0.6 throughout, the new
      feed's floor, and no file offered on both feeds. */
  ghost predicate BridgeOk(env: Env, r: Release) {
    var v1, v1b, v2, v2b := env.parse(r.v1), env.parse(r.v1Beta), env.parse(r.v2), env.parse(r.v2Beta);
    && !IsFrozen(r) && Given(r.v1Binary)
    && FeedOk(env, r.v1, r.v1Binary.value, BRIDGE) && FeedOk(env, r.v1Beta, r.v1Binary.value, BRIDGE)
    && VersionOf(v1) == VersionOf(v1b) == VersionOf(v2) == Some(BRIDGE_RELEASE)
    && FloorOf(v1) == FloorOf(v1b) == FloorOf(v2)
    && v2.Some? && v2b.Some? && {v1.value.url, v1b.value.url} * {v2.value.url, v2b.value.url} == {}
  }

  lemma CrossIff(fs: seq<Failure>, v1: Payload, v1b: Payload, v2: Payload, v2b: Payload)
    requires Given(v1.floor) && Given(v1b.floor) && Given(v2.floor)
    ensures AfterCross(fs, v1, v1b, v2, v2b) == [] <==>
            && fs == [] && v1.version == v2.version && v1.floor == v1b.floor == v2.floor
            && {v1.url, v1b.url} * {v2.url, v2b.url} == {}
  {}

  lemma CrossGrows(fs: seq<Failure>, v1: Payload, v1b: Payload, v2: Payload, v2b: Payload)
    requires fs != []
    ensures AfterCross(fs, v1, v1b, v2, v2b) != []
  {}

  lemma BridgeOkIff(env: Env, fs: seq<Failure>, r: Release)
    requires Given(r.v1Binary) && !IsFrozen(r)
    requires Truthy(env.parse(r.v2)) && Truthy(env.parse(r.v2Beta)) && Given(env.parse(r.v2).value.floor)
    ensures AfterBridge(env, fs, r) == [] <==> fs == [] && BridgeOk(env, r)
  {
    var v1, v1b, v2, v2b := env.parse(r.v1), env.parse(r.v1Beta), env.parse(r.v2), env.parse(r.v2Beta);
    var f1 := AfterFeed(env, fs, V1, r.v1, r.v1Binary.value, BRIDGE);
    FeedOkIff(env, fs, V1, r.v1, r.v1Binary.value, BRIDGE);
    var f2 := AfterFeed(env, f1, V1Beta, r.v1Beta, r.v1Binary.value, BRIDGE);
    FeedOkIff(env, f1, V1Beta, r.v1Beta, r.v1Binary.value, BRIDGE);
    var f3 := Add(f2, Truthy(v1) && v1.value.version != Some(BRIDGE_RELEASE), NotTheBridgeRelease(V1));
    var f4 := Add(f3, Truthy(v1b) && v1b.value.version != Some(BRIDGE_RELEASE), NotTheBridgeRelease(V1Beta));
    if Truthy(v1) && Truthy(v1b) {
      assert AfterBridge(env, fs, r) == AfterCross(f4, v1.value, v1b.value, v2.value, v2b.value);
      if f4 == [] {
        CrossIff(f4, v1.value, v1b.value, v2.value, v2b.value);
      } else {
        CrossGrows(f4, v1.value, v1b.value, v2.value, v2b.value);
      }
    }
  }

  /** A release is accepted exactly when both new-feed manifests describe the
      strict build with one floor, and the old feed is either frozen as recorded
      or re-signed for the bridge, not both. */
  lemma AcceptedIff(env: Env, r: Release)
    ensures Accepted(env, r) <==>
            && FeedOk(env, r.v2, r.v2Binary, STRICT) && FeedOk(env, r.v2Beta, r.v2Binary, STRICT)
            && FloorOf(env.parse(r.v2)) == FloorOf(env.parse(r.v2Beta))
            && (FrozenOk(env, r) || BridgeOk(env, r))
  {
    var f1 := AfterFeed(env, [], V2, r.v2, r.v2Binary, STRICT);
    FeedOkIff(env, [], V2, r.v2, r.v2Binary, STRICT);
    FeedOkIff(env, f1, V2Beta, r.v2Beta, r.v2Binary, STRICT);
    var f2 := AfterFeed(env, f1, V2Beta, r.v2Beta, r.v2Binary, STRICT);
    var v2, v2b := env.parse(r.v2), env.parse(r.v2Beta);
    var f3 := Add(f2, Truthy(v2) && Truthy(v2b) && FloorOf(v2) != FloorOf(v2b), BetaFloorDiffers);
    OldFeedGrows(env, f3, r);
    if f3 == [] && Given(r.v1Binary) && !IsFrozen(r) { BridgeOkIff(env, f3, r); }
  }

  lemma OldFeedGrows(env: Env, fs: seq<Failure>, r: Release)
    ensures AfterOldFeed(env, fs, r) == [] ==> fs == []
    ensures !Given(r.v1Binary) ==> (AfterOldFeed(env, fs, r) == [] <==> fs == [] && FrozenOk(env, r))
    ensures Given(r.v1Binary) && IsFrozen(r) ==> AfterOldFeed(env, fs, r) != []
  {
    if Given(r.v1Binary) && !IsFrozen(r) {
      FeedOkIff(env, fs, V1, r.v1, r.v1Binary.value, BRIDGE);
      FeedOkIff(env, AfterFeed(env, fs, V1, r.v1, r.v1Binary.value, BRIDGE), V1Beta, r.v1Beta, r.v1Binary.value, BRIDGE);
    }
  }

  /** What an accepted bridge release has in common: version 1.0.6 and one floor,
      the strict build's own, on all four manifests, and no shared file. */
  lemma AcceptedBridge(env: Env, r: Release)
    requires Accepted(env, r) && Given(r.v1Binary)
    ensures var v1, v1b, v2, v2b := env.parse(r.v1), env.parse(r.v1Beta), env.parse(r.v2), env.parse(r.v2Beta);
            var strict := env.ask(r.v2Binary);
            && v1.Some? && v1b.Some? && v2.Some? && v2b.Some? && strict.Some?
            && VersionOf(v1) == VersionOf(v1b) == VersionOf(v2) == VersionOf(v2b) == Some(BRIDGE_RELEASE)
            && FloorOf(v1) == FloorOf(v1b) == FloorOf(v2) == FloorOf(v2b) == strict.value.compiledFloor
            && {v1.value.url, v1b.value.url} * {v2.value.url, v2b.value.url} == {}
  {
    AcceptedIff(env, r);
  }

  /** A swapped pair is refused: no release that puts an accepted bridge build on
      the new feed, or an accepted strict build on the old one, is accepted. */
  lemma ExchangedBuildsAreRefused(env: Env, r: Release, other: Release)
    requires Accepted(env, r) && Given(r.v1Binary)
    requires other.v2Binary == r.v1Binary.value || (Given(other.v1Binary) && other.v1Binary.value == r.v2Binary)
    ensures !Accepted(env, other)
  {
    AcceptedIff(env, r);
    AcceptedIff(env, other);
  }

  /** A release whose new feed is not the bridge release must leave the old feed
      as the recorded hashes say. */
  lemma LaterReleaseIsFrozen(env: Env, r: Release)
    requires Accepted(env, r) && VersionOf(env.parse(r.v2)) != Some(BRIDGE_RELEASE)
    ensures FrozenOk(env, r)
  {
    AcceptedIff(env, r);
  }

  ghost predicate CollisionFree(sha: Bytes -> string) { forall a, b :: sha(a) == sha(b) ==> a == b }

  /** The hashes a release is given, where it is given any, are those of the old
      feed as the release before left it. */
  ghost predicate GivenRecorded(env: Env, before: Release, r: Release) {
    && (Given(r.frozen) ==> Lower(r.frozen.value) == env.sha(before.v1))
    && (Given(r.betaFrozen) ==> Lower(r.betaFrozen.value) == env.sha(before.v1Beta))
  }

  /** An accepted release given the recorded hashes leaves the old feed as it was
      unless it is a bridge release itself, so 1.0.6 and given no hash at all. */
  lemma OnlyABridgeChangesOldFeed(env: Env, before: Release, r: Release)
    requires CollisionFree(env.sha) && Accepted(env, r) && GivenRecorded(env, before, r)
    ensures IsFrozen(r) <==> !BridgeOk(env, r)
    ensures IsFrozen(r) ==> r.v1 == before.v1 && r.v1Beta == before.v1Beta
    ensures !IsFrozen(r) ==> VersionOf(env.parse(r.v2)) == Some(BRIDGE_RELEASE) && Given(r.v1Binary)
  {
    AcceptedIff(env, r);
  }

  /** Releases in turn, each accepted and given what the one before recorded. */
  ghost predicate Chain(env: Env, rs: seq<Release>) {
    forall k :: 0 < k < |rs| ==> Accepted(env, rs[k]) && GivenRecorded(env, rs[k - 1], rs[k])
  }

  /** The last bridge release at or before i, the first release counting as one. */
  ghost function LastBridge(rs: seq<Release>, i: nat): (b: nat)
    requires i < |rs|
    ensures b <= i && (b == 0 || !IsFrozen(rs[b])) && forall k :: b < k <= i ==> IsFrozen(rs[k])
  {
    if i == 0 || !IsFrozen(rs[i]) then i else LastBridge(rs, i - 1)
  }

  /** Over any sequence of accepted releases both old-feed manifests are, byte for
      byte, those of the last bridge release. */
  lemma {:induction false} OldFeedIsLastBridges(env: Env, rs: seq<Release>, i: nat)
    requires CollisionFree(env.sha) && Chain(env, rs) && i < |rs|
    ensures var b := LastBridge(rs, i); rs[i].v1 == rs[b].v1 && rs[i].v1Beta == rs[b].v1Beta
  {
    hide Accepted, GivenRecorded, BridgeOk, CollisionFree;
    if i > 0 && IsFrozen(rs[i]) {
      OnlyABridgeChangesOldFeed(env, rs[i - 1], rs[i]);
      OldFeedIsLastBridges(env, rs, i - 1);
    }
  }

  /** So with a hash given each time, or no later release being 1.0.6, the old
      feed stays as the first one left it. */
  lemma OldFeedStaysFrozen(env: Env, rs: seq<Release>, i: nat)
    requires CollisionFree(env.sha) && Chain(env, rs) && i < |rs|
    requires forall k :: 0 < k < |rs| ==> IsFrozen(rs[k]) || VersionOf(env.parse(rs[k].v2)) != Some(BRIDGE_RELEASE)
    ensures rs[i].v1 == rs[0].v1 && rs[i].v1Beta == rs[0].v1Beta
  {
    OldFeedIsLastBridges(env, rs, i);
    var b := LastBridge(rs, i);
    if b > 0 { OnlyABridgeChangesOldFeed(env, rs[b - 1], rs[b]); }
  }

  /** "Published once" is not enforced: an accepted bridge release is accepted
      again with any other old-feed manifests that carry the same payloads, and
      hashes recorded in between are not asked for. */
  lemma BridgeMayBeRepeated(env: Env, r: Release, m: Bytes, b: Bytes)
    requires Accepted(env, r) && Given(r.v1Binary)
    requires env.parse(m) == env.parse(r.v1) && env.parse(b) == env.parse(r.v1Beta)
    ensures Accepted(env, r.(v1 := m, v1Beta := b))
    ensures Chain(env, [r, r.(v1 := m, v1Beta := b)])
  {
    AcceptedIff(env, r);
    AcceptedIff(env, r.(v1 := m, v1Beta := b));
  }
}
