/** What the gate on the Linux feeds reports, failure by failure: each is reported
    exactly when its cause is there. */
module FeedMeaning {
  import opened Basics
  import opened LinuxFeeds

  lemma AddMeans(fs: seq<Failure>, c: bool, f: Failure, g: Failure)
    ensures g in Add(fs, c, f) <==> g in fs || (c && g == f)
  {}

  lemma {:induction false} CopiesMean(fs: seq<Failure>, f: Failure, n: nat, g: Failure)
    ensures g in AddCopies(fs, f, n) <==> g in fs || (n > 0 && g == f)
  {
    if n > 0 { CopiesMean(fs, f, n - 1, g); }
  }

  /** Why a feed's manifest fails for its binary. */
  ghost predicate IsCause(env: Env, feed: Feed, m: Bytes, b: Bytes, variant: string, g: Failure) {
    match env.parse(m)
    case None => g == Unreadable(feed)
    case Some(p) =>
      || (g == NotScannable(feed) && env.scan(b) == None)
      || (g == Marker(feed) && env.scan(b).Some? && env.scan(b).value > 0)
      || match env.ask(b)
         case None => g == NoIdentity(feed)
         case Some(id) => Disagrees(env, feed, b, variant, p, id, g)
  }

  /** Manifest and binary do not agree, or not with the variant. */
  ghost predicate Disagrees(env: Env, feed: Feed, b: Bytes, variant: string, p: Payload, id: Identity, g: Failure) {
    || (g == ManifestPlatform(feed) && p.platform != Some("linux-x86_64"))
    || (g == BinaryPlatform(feed) && id.platform != Some("linux-x86_64"))
    || (g == HashMismatch(feed) && p.sha256 != Some(env.sha(b)))
    || (g == SizeMismatch(feed) && p.size != Some(|b|))
    || (g == VersionMismatch(feed) && p.version != id.version)
    || (g == WrongVariant(feed) && id.variant != Some(variant))
    || (g == NoFloor(feed) && (p.floor == None || p.floor == Some("")))
    || (g == BridgeFloor(feed) && variant == "bridge" && id.compiledFloor != Some("2.52.5"))
    || (g == StrictFloor(feed) && variant == "strict" && p.floor.Some? && p.floor.value != "" &&
        id.compiledFloor != p.floor)
  }

  lemma MappingMeans(
    env: Env, fs: seq<Failure>, feed: Feed, p: Payload, b: Bytes, id: Identity, variant: string, g: Failure)
    ensures g in AfterMapping(env, fs, feed, p, b, id, variant) <==>
            g in fs || Disagrees(env, feed, b, variant, p, id, g)
  {
    DescriptionMeans(env, fs, feed, p, b, id, g);
    hide Add, AfterDescription;
    var f0 := AfterDescription(env, fs, feed, p, b, id);
    var f1 := Add(f0, id.variant != Some(variant), WrongVariant(feed));
    AddMeans(f0, id.variant != Some(variant), WrongVariant(feed), g);
    var f2 := Add(f1, !Given(p.floor), NoFloor(feed));
    AddMeans(f1, !Given(p.floor), NoFloor(feed), g);
    var c := variant == BRIDGE && id.compiledFloor != Some(BRIDGE_FLOOR);
    AddMeans(f2, c, BridgeFloor(feed), g);
    var d := variant == STRICT && Given(p.floor) && id.compiledFloor != p.floor;
    AddMeans(Add(f2, c, BridgeFloor(feed)), d, StrictFloor(feed), g);
  }

  lemma DescriptionMeans(env: Env, fs: seq<Failure>, feed: Feed, p: Payload, b: Bytes, id: Identity, g: Failure)
    ensures g in AfterDescription(env, fs, feed, p, b, id) <==>
            || g in fs
            || (g == ManifestPlatform(feed) && p.platform != Some("linux-x86_64"))
            || (g == BinaryPlatform(feed) && id.platform != Some("linux-x86_64"))
            || (g == HashMismatch(feed) && p.sha256 != Some(env.sha(b)))
            || (g == SizeMismatch(feed) && p.size != Some(|b|))
            || (g == VersionMismatch(feed) && p.version != id.version)
  {
    hide Add;
    var f1 := Add(fs, p.platform != Some(PLATFORM), ManifestPlatform(feed));
    AddMeans(fs, p.platform != Some(PLATFORM), ManifestPlatform(feed), g);
    var f2 := Add(f1, id.platform != Some(PLATFORM), BinaryPlatform(feed));
    AddMeans(f1, id.platform != Some(PLATFORM), BinaryPlatform(feed), g);
    var f3 := Add(f2, p.sha256 != Some(env.sha(b)), HashMismatch(feed));
    AddMeans(f2, p.sha256 != Some(env.sha(b)), HashMismatch(feed), g);
    var f4 := Add(f3, p.size != Some(|b|), SizeMismatch(feed));
    AddMeans(f3, p.size != Some(|b|), SizeMismatch(feed), g);
    AddMeans(f4, p.version != id.version, VersionMismatch(feed), g);
  }

  /** A feed reports what it reported before and just its causes. */
  lemma FeedReports(env: Env, fs: seq<Failure>, feed: Feed, m: Bytes, b: Bytes, variant: string, g: Failure)
    ensures g in AfterFeed(env, fs, feed, m, b, variant) <==> g in fs || IsCause(env, feed, m, b, variant, g)
  {
    hide AfterMapping, Disagrees, AddCopies;
    if env.parse(m).Some? {
      if env.scan(b).Some? { CopiesMean(fs, Marker(feed), env.scan(b).value, g); }
      if env.ask(b).Some? {
        MappingMeans(env, AfterScan(env, fs, feed, b), feed, env.parse(m).value, b, env.ask(b).value, variant, g);
      }
    }
  }

  // ---- the release -------------------------------------------------------

  /** Given on the command line, and not empty. */
  ghost predicate IsGiven(o: Option<string>) { o.Some? && o.value != "" }

  ghost predicate IsThere(p: Option<Payload>) { p.Some? && !p.value.bare }

  /** What is wrong with an old feed that is frozen, or with the way it is said to be. */
  ghost predicate IsOldFeedCause(env: Env, r: Release, g: Failure) {
    var frozen := IsGiven(r.frozen) || IsGiven(r.betaFrozen);
    var both := IsGiven(r.frozen) && IsGiven(r.betaFrozen);
    || (g == BothModes && frozen && IsGiven(r.v1Binary))
    || (g == HalfFrozen && frozen && !both && !IsGiven(r.v1Binary))
    || (g == ManifestChanged(V1) && both && !IsGiven(r.v1Binary) && env.sha(r.v1) != Lower(r.frozen.value))
    || (g == ManifestChanged(V1Beta) && both && !IsGiven(r.v1Binary) && env.sha(r.v1Beta) != Lower(r.betaFrozen.value))
    || (g == NoMode && !frozen && !IsGiven(r.v1Binary))
    || (!frozen && IsGiven(r.v1Binary) && IsBridgeCause(env, r, r.v1Binary.value, g))
  }

  /** What is wrong with an old feed re-signed for the bridge. */
  ghost predicate IsBridgeCause(env: Env, r: Release, b: Bytes, g: Failure) {
    var v1, v1b, v2, v2b := env.parse(r.v1), env.parse(r.v1Beta), env.parse(r.v2), env.parse(r.v2Beta);
    || IsCause(env, V1, r.v1, b, "bridge", g)
    || IsCause(env, V1Beta, r.v1Beta, b, "bridge", g)
    || (g == NotTheBridgeRelease(V1) && IsThere(v1) && v1.value.version != Some("1.0.6"))
    || (g == NotTheBridgeRelease(V1Beta) && IsThere(v1b) && v1b.value.version != Some("1.0.6"))
    || (IsThere(v1) && IsThere(v1b) && IsThere(v2) && IsThere(v2b) &&
        IsCrossCause(v1.value, v1b.value, v2.value, v2b.value, g))
  }

  /** The two feeds do not go together. */
  ghost predicate IsCrossCause(v1: Payload, v1b: Payload, v2: Payload, v2b: Payload, g: Failure) {
    || (g == VersionsDiffer && v1.version != v2.version)
    || (g == FloorDiffers(V1) && IsGiven(v1.floor) && IsGiven(v2.floor) && v1.floor != v2.floor)
    || (g == FloorDiffers(V1Beta) && IsGiven(v1b.floor) && IsGiven(v2.floor) && v1b.floor != v2.floor)
    || (g == SharedUrl && (v1.url == v2.url || v1.url == v2b.url || v1b.url == v2.url || v1b.url == v2b.url))
  }

  lemma CrossReports(fs: seq<Failure>, v1: Payload, v1b: Payload, v2: Payload, v2b: Payload, g: Failure)
    ensures g in AfterCross(fs, v1, v1b, v2, v2b) <==> g in fs || IsCrossCause(v1, v1b, v2, v2b, g)
  {
    hide Add;
    var f1 := Add(fs, v1.version != v2.version, VersionsDiffer);
    AddMeans(fs, v1.version != v2.version, VersionsDiffer, g);
    var c := Given(v1.floor) && Given(v2.floor) && v1.floor != v2.floor;
    var f2 := Add(f1, c, FloorDiffers(V1));
    AddMeans(f1, c, FloorDiffers(V1), g);
    var cb := Given(v1b.floor) && Given(v2.floor) && v1b.floor != v2.floor;
    var f3 := Add(f2, cb, FloorDiffers(V1Beta));
    AddMeans(f2, cb, FloorDiffers(V1Beta), g);
    var shared := {v1.url, v1b.url} * {v2.url, v2b.url};
    AddMeans(f3, shared != {}, SharedUrl, g);
    SharedIff(v1.url, v1b.url, v2.url, v2b.url);
  }

  lemma SharedIff<T>(a: T, b: T, c: T, d: T)
    ensures {a, b} * {c, d} != {} <==> a == c || a == d || b == c || b == d
  {
    var both := {a, b} * {c, d};
    if a == c || a == d { assert a in both; }
    if b == c || b == d { assert b in both; }
  }

  lemma BridgeReports(env: Env, fs: seq<Failure>, r: Release, g: Failure)
    requires r.v1Binary.Some?
    ensures g in AfterBridge(env, fs, r) <==> g in fs || IsBridgeCause(env, r, r.v1Binary.value, g)
  {
    hide Add, AfterFeed, AfterCross, IsCause, IsCrossCause;
    var v1, v1b, v2, v2b := env.parse(r.v1), env.parse(r.v1Beta), env.parse(r.v2), env.parse(r.v2Beta);
    var b := r.v1Binary.value;
    var f1 := AfterFeed(env, fs, V1, r.v1, b, BRIDGE);
    FeedReports(env, fs, V1, r.v1, b, BRIDGE, g);
    var f2 := AfterFeed(env, f1, V1Beta, r.v1Beta, b, BRIDGE);
    FeedReports(env, f1, V1Beta, r.v1Beta, b, BRIDGE, g);
    var c := Truthy(v1) && v1.value.version != Some(BRIDGE_RELEASE);
    var f3 := Add(f2, c, NotTheBridgeRelease(V1));
    AddMeans(f2, c, NotTheBridgeRelease(V1), g);
    var cb := Truthy(v1b) && v1b.value.version != Some(BRIDGE_RELEASE);
    var f4 := Add(f3, cb, NotTheBridgeRelease(V1Beta));
    AddMeans(f3, cb, NotTheBridgeRelease(V1Beta), g);
    if Truthy(v1) && Truthy(v1b) && Truthy(v2) && Truthy(v2b) {
      CrossReports(f4, v1.value, v1b.value, v2.value, v2b.value, g);
    }
  }

  lemma OldFeedReports(env: Env, fs: seq<Failure>, r: Release, g: Failure)
    ensures g in AfterOldFeed(env, fs, r) <==> g in fs || IsOldFeedCause(env, r, g)
  {
    hide Add, AfterBridge, IsBridgeCause, Lower;
    if !IsFrozen(r) && Given(r.v1Binary) { BridgeReports(env, fs, r, g); }
    if Given(r.frozen) && Given(r.betaFrozen) {
      var c := env.sha(r.v1) != Lower(r.frozen.value);
      AddMeans(fs, c, ManifestChanged(V1), g);
      AddMeans(Add(fs, c, ManifestChanged(V1)), env.sha(r.v1Beta) != Lower(r.betaFrozen.value), ManifestChanged(V1Beta), g);
    }
  }

  /** Everything that is wrong with a release is reported, and nothing else: the
      failures of both new-feed manifests, a floor that differs between them, and
      those of the old feed. */
  lemma ReleaseReports(env: Env, r: Release, g: Failure)
    ensures var v2, v2b := env.parse(r.v2), env.parse(r.v2Beta);
            g in AfterRelease(env, [], r) <==>
              || IsCause(env, V2, r.v2, r.v2Binary, "strict", g)
              || IsCause(env, V2Beta, r.v2Beta, r.v2Binary, "strict", g)
              || (g == BetaFloorDiffers && IsThere(v2) && IsThere(v2b) && v2.value.floor != v2b.value.floor)
              || IsOldFeedCause(env, r, g)
  {
    hide Add, AfterFeed, AfterOldFeed, IsCause, IsOldFeedCause;
    var v2, v2b := env.parse(r.v2), env.parse(r.v2Beta);
    var f1 := AfterFeed(env, [], V2, r.v2, r.v2Binary, STRICT);
    FeedReports(env, [], V2, r.v2, r.v2Binary, STRICT, g);
    var f2 := AfterFeed(env, f1, V2Beta, r.v2Beta, r.v2Binary, STRICT);
    FeedReports(env, f1, V2Beta, r.v2Beta, r.v2Binary, STRICT, g);
    var c := Truthy(v2) && Truthy(v2b) && FloorOf(v2) != FloorOf(v2b);
    AddMeans(f2, c, BetaFloorDiffers, g);
    OldFeedReports(env, Add(f2, c, BetaFloorDiffers), r, g);
  }

  /** A release is accepted exactly when nothing is wrong with it. */
  lemma AcceptedIffNoCause(env: Env, r: Release)
    ensures Accepted(env, r) <==> forall g :: g !in AfterRelease(env, [], r)
  {
    hide AfterRelease;
    var fs := AfterRelease(env, [], r);
    if fs != [] { assert fs[0] in fs; }
  }
}
