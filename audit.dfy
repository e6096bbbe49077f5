/** The deep-link auditor (`check_dals` and `check_manifest_keys_for_deeplink`).
    What the tool prints is modelled as a transcript of `Event`s, and
    `exit(1)` as an `Exited` outcome carrying the transcript up to that point. */
module Audit {
  import opened Wrappers
  import opened Strings
  import opened Manifest
  import opened AssetLinks
  import ApkCert

  /** Only deep links with this prefix are audited. */
  const Http := "http"

  const HandleAllUrls := "delegate_permission/common.handle_all_urls"
  const GetLoginCreds := "delegate_permission/common.get_login_creds"

  datatype RelationKind = Standard | Custom

  /** A relation string is Standard when it mentions one of the two relations
      Google defines, Custom otherwise. */
  function Classify(relation: string): (k: RelationKind)
    ensures k == Standard <==>
            (exists i :: OccursAt(relation, HandleAllUrls, i))
            || (exists i :: OccursAt(relation, GetLoginCreds, i))
  {
    if Contains(relation, HandleAllUrls) || Contains(relation, GetLoginCreds) then Standard else Custom
  }

  // ---------------------------------------------------------------------------
  // The transcript
  // ---------------------------------------------------------------------------

  datatype Event =
    | FingerprintMissing
    | FingerprintFound(sha256: string)
    | ActivityHeader(activity: string)
    | Checking(deeplink: string)
    | FlagPresent(flag: Flag)
    | FlagAbsent(flag: Flag)
    | DalErrorReported(error: DalError)
    | DalVerified
    | RelationLine(kind: RelationKind, relation: string)
    | DalFailed
    | HelpMessage

  /** An event that reports on the Digital Asset Links check of a deep link. */
  predicate IsDalEvent(e: Event) {
    e.DalErrorReported? || e.DalVerified? || e.RelationLine? || e.DalFailed?
  }

  /** The report of one flag. */
  function FlagEvent(flags: Flags, f: Flag): Event {
    if Has(flags, f) then FlagPresent(f) else FlagAbsent(f)
  }

  // ---------------------------------------------------------------------------
  // check_manifest_keys_for_deeplink
  // ---------------------------------------------------------------------------

  /** The flag reports for one deep link, and whether `exit(1)` was reached. */
  datatype FlagCheck = FlagCheck(events: seq<Event>, exit: bool)

  /** Checks the flags `fs` in order; in CI mode the first absent flag ends
      the check with an exit. */
  function CheckFlags(flags: Flags, cicd: bool, fs: seq<Flag>): (r: FlagCheck)
    ensures |r.events| <= |fs|
    ensures r.exit ==> cicd
  {
    if fs == [] then FlagCheck([], false)
    else if !Has(flags, fs[0]) && cicd then FlagCheck([FlagAbsent(fs[0])], true)
    else
      var rest := CheckFlags(flags, cicd, fs[1..]);
      FlagCheck([FlagEvent(flags, fs[0])] + rest.events, rest.exit)
  }

  /** What `CheckFlags` reports: one line per flag, in order, up to and
      including the first absent one in CI mode, where it exits; outside CI
      mode, or when every flag is present, all of them and no exit. */
  lemma {:induction false} CheckFlagsReports(flags: Flags, cicd: bool, fs: seq<Flag>)
    ensures var r := CheckFlags(flags, cicd, fs);
            && (r.exit <==> cicd && exists i :: 0 <= i < |fs| && !Has(flags, fs[i]))
            && (!r.exit ==> |r.events| == |fs|)
            && |r.events| <= |fs|
            && (forall i :: 0 <= i < |r.events| ==> r.events[i] == FlagEvent(flags, fs[i]))
            && (r.exit ==> |r.events| > 0 && r.events[|r.events| - 1].FlagAbsent?
                           && forall i :: 0 <= i < |r.events| - 1 ==> Has(flags, fs[i]))
    decreases |fs|
  {
    if fs != [] && !(!Has(flags, fs[0]) && cicd) {
      CheckFlagsReports(flags, cicd, fs[1..]);
      assert forall i :: 1 <= i < |fs| ==> fs[i] == fs[1..][i - 1];
    }
  }

  /** `check_manifest_keys_for_deeplink`: the flag reports for autoverify,
      VIEW, BROWSABLE and DEFAULT, in that order. */
  function CheckManifestKeys(flags: Flags, cicd: bool): (r: FlagCheck)
    ensures |r.events| <= 4
    ensures r.exit ==> cicd && !AllFlags(flags)
  {
    CheckFlagsReports(flags, cicd, FlagOrder);
    AllFlagsIff(flags);
    CheckFlags(flags, cicd, FlagOrder)
  }

  /** Outside CI mode all four flags are reported and the run goes on; in CI
      mode the run exits exactly when a flag is absent, right after
      reporting the first absent one. */
  lemma CheckManifestKeysReports(flags: Flags, cicd: bool)
    ensures var r := CheckManifestKeys(flags, cicd);
            && (r.exit <==> cicd && !AllFlags(flags))
            && (!r.exit ==> |r.events| == 4)
            && |r.events| <= 4
            && (forall i :: 0 <= i < |r.events| ==> r.events[i] == FlagEvent(flags, FlagOrder[i]))
            && (r.exit ==> |r.events| > 0 && r.events[|r.events| - 1].FlagAbsent?
                           && forall i :: 0 <= i < |r.events| - 1 ==> Has(flags, FlagOrder[i]))
  {
    AllFlagsIff(flags);
    CheckFlagsReports(flags, cicd, FlagOrder);
  }

  // ---------------------------------------------------------------------------
  // check_dals, as a definition
  // ---------------------------------------------------------------------------

  /** What is fixed for a whole run. */
  datatype Context = Context(sha256: string, package: string, cicd: bool, net: Network)

  /** A transcript so far, and whether `exit(1)` has been reached. */
  datatype Run = Run(events: seq<Event>, exited: bool)

  /** The lines printed for each relation of a verified deep link. */
  function RelationLines(relations: seq<string>): seq<Event> {
    if relations == [] then []
    else RelationLines(relations[..|relations| - 1])
         + [RelationLine(Classify(relations[|relations| - 1]), relations[|relations| - 1])]
  }

  /** One line per relation, in order, each with the relation's class. */
  lemma {:induction false} RelationLinesAt(relations: seq<string>)
    ensures |RelationLines(relations)| == |relations|
    ensures forall i :: 0 <= i < |relations| ==>
              RelationLines(relations)[i] == RelationLine(Classify(relations[i]), relations[i])
    decreases |relations|
  {
    if relations != [] {
      var init := relations[..|relations| - 1];
      RelationLinesAt(init);
      assert forall i :: 0 <= i < |init| ==> init[i] == relations[i];
    }
  }

  /** The report of a lookup: a caught exception, then success with the
      classified relations, or failure. */
  function LookupEvents(l: Lookup): (e: seq<Event>)
    ensures l.LookupFailed? ==> e == [DalErrorReported(l.error), DalFailed]
    ensures l.NotAuthorized? ==> e == [DalFailed]
    ensures l.Authorized? ==> e == [DalVerified] + RelationLines(l.relations)
  {
    (if l.LookupFailed? then [DalErrorReported(l.error)] else [])
    + (if l.Authorized? then [DalVerified] + RelationLines(l.relations) else [DalFailed])
  }

  /** One audited deep link: the flag check, then (unless it exited) the
      relation check; in CI mode a failed relation check exits. */
  function AuditLink(events: seq<Event>, deeplink: string, flags: Flags, ctx: Context): (r: Run)
    ensures |events| < |r.events| && r.events[..|events|] == events
    ensures r.exited ==> ctx.cicd
  {
    var fc := CheckManifestKeys(flags, ctx.cicd);
    var checked := events + [Checking(deeplink)] + fc.events;
    if fc.exit then Run(checked, true)
    else
      var lookup := DalLookup(deeplink, ctx.sha256, ctx.package, ctx.net);
      Run(checked + LookupEvents(lookup), ctx.cicd && RelationList(lookup).None?)
  }

  /** The deep links `links` of one activity, in order, skipping those that
      do not start with `http`. */
  function AuditLinks(run: Run, handlers: Handlers, links: seq<string>, ctx: Context): (r: Run)
    requires forall l :: l in links ==> l in Keys(handlers)
    ensures run.exited ==> r == run
    ensures !ctx.cicd && !run.exited ==> !r.exited
    decreases |links|
  {
    if run.exited || links == [] then run
    else
      var next := if IsHttp(links[0]) then AuditLink(run.events, links[0], FlagsOf(handlers, links[0]), ctx)
                  else run;
      AuditLinks(next, handlers, links[1..], ctx)
  }

  /** The activities in the order given, each with its deep links sorted. */
  function AuditActivities(run: Run, deeplinks: DeepLinks, ctx: Context): (r: Run)
    ensures run.exited ==> r == run
    ensures !ctx.cicd && !run.exited ==> !r.exited
    decreases |deeplinks|
  {
    if run.exited || deeplinks == [] then run
    else
      var handlers := deeplinks[0].1;
      var started := Run(run.events + [ActivityHeader(deeplinks[0].0)], false);
      AuditActivities(AuditLinks(started, handlers, Sort(Keys(handlers)), ctx), deeplinks[1..], ctx)
  }

  /** How a run ends: normally, with the help message last, or by `exit(status)`. */
  datatype Outcome =
    | Completed(events: seq<Event>)
    | Exited(events: seq<Event>, status: int)

  /** The whole run, given the certificate tool's output. */
  function Audit(deeplinks: DeepLinks, certOutput: string, package: string, cicd: bool, net: Network): (o: Outcome)
    ensures o.Exited? ==> o.status == 1
    ensures !cicd ==> (o.Completed? <==> ApkCert.GetSha256CertFingerprint(certOutput).Some?)
  {
    match ApkCert.GetSha256CertFingerprint(certOutput)
    case None => Exited([FingerprintMissing], 1)
    case Some(sha256) =>
      var run := AuditActivities(Run([FingerprintFound(sha256)], false), deeplinks,
                                 Context(sha256, package, cicd, net));
      if run.exited then Exited(run.events, 1) else Completed(run.events + [HelpMessage])
  }

  // ---------------------------------------------------------------------------
  // check_dals
  // ---------------------------------------------------------------------------

  /** The loop of `check_dals` that prints each relation with its class. */
  method ReportRelations(events: seq<Event>, relations: seq<string>) returns (out: seq<Event>)
    ensures out == events + RelationLines(relations)
  {
    out := events;
    var j := 0;
    while j < |relations|
      invariant 0 <= j <= |relations|
      invariant out == events + RelationLines(relations[..j])
    {
      var relation := relations[j];
      assert relations[..j + 1][..j] == relations[..j];
      out := out + [RelationLine(Classify(relation), relation)];
      j := j + 1;
    }
    assert relations[..j] == relations;
  }

  /** The body of the inner loop of `check_dals` for a deep link that starts
      with `http`: its flags, then its relations. */
  method CheckDeepLink(events: seq<Event>, deeplink: string, flags: Flags, ctx: Context)
    returns (run: Run)
    ensures run == AuditLink(events, deeplink, flags, ctx)
  {
    var fc := CheckManifestKeys(flags, ctx.cicd);
    var checked := events + [Checking(deeplink)] + fc.events;
    if fc.exit {
      return Run(checked, true);
    }
    var lookup := GetRelationListInDal(deeplink, ctx.sha256, ctx.package, ctx.net);
    var report: seq<Event> := [];
    if lookup.LookupFailed? {
      report := [DalErrorReported(lookup.error)];
    }
    if lookup.Authorized? {
      var lines := ReportRelations([DalVerified], lookup.relations);
      report := report + lines;
    } else {
      report := report + [DalFailed];
      if ctx.cicd {
        return Run(checked + report, true);
      }
    }
    return Run(checked + report, false);
  }

  /** The body of the outer loop of `check_dals`: the activity's name, then
      its deep links in sorted order, skipping those that do not start with
      `http`. */
  method CheckActivity(events: seq<Event>, activity: string, handlers: Handlers, ctx: Context)
    returns (run: Run)
    ensures run == AuditLinks(Run(events + [ActivityHeader(activity)], false), handlers, Sort(Keys(handlers)), ctx)
  {
    var out := events + [ActivityHeader(activity)];
    var links := Sort(Keys(handlers));
    ghost var whole := AuditLinks(Run(out, false), handlers, links, ctx);
    var k := 0;
    while k < |links|
      invariant 0 <= k <= |links|
      invariant AuditLinks(Run(out, false), handlers, links[k..], ctx) == whole
    {
      var deeplink := links[k];
      assert links[k..][1..] == links[k + 1..];
      if IsHttp(deeplink) {
        var next := CheckDeepLink(out, deeplink, FlagsOf(handlers, deeplink), ctx);
        if next.exited {
          return next;
        }
        out := next.events;
      }
      k := k + 1;
    }
    return Run(out, false);
  }

  /** The outer loop of `check_dals`: every activity in the order given,
      until one exits. */
  method CheckActivities(events: seq<Event>, deeplinks: DeepLinks, ctx: Context) returns (run: Run)
    ensures run == AuditActivities(Run(events, false), deeplinks, ctx)
  {
    var out := events;
    ghost var whole := AuditActivities(Run(events, false), deeplinks, ctx);
    var a := 0;
    while a < |deeplinks|
      invariant 0 <= a <= |deeplinks|
      invariant AuditActivities(Run(out, false), deeplinks[a..], ctx) == whole
    {
      assert deeplinks[a..][1..] == deeplinks[a + 1..];
      var next := CheckActivity(out, deeplinks[a].0, deeplinks[a].1, ctx);
      if next.exited {
        return next;
      }
      out := next.events;
      a := a + 1;
    }
    return Run(out, false);
  }

  /** `check_dals`: the fingerprint, then every activity and every deep link
      starting with `http` in sorted order, with its flag and relation checks. */
  method CheckDals(deeplinks: DeepLinks, certOutput: string, package: string, cicd: bool, net: Network)
    returns (outcome: Outcome)
    ensures outcome == Audit(deeplinks, certOutput, package, cicd, net)
  {
    var sha256 := ApkCert.GetSha256CertFingerprint(certOutput);
    if sha256.None? {
      return Exited([FingerprintMissing], 1);
    }
    var ctx := Context(sha256.value, package, cicd, net);
    var run := CheckActivities([FingerprintFound(sha256.value)], deeplinks, ctx);
    if run.exited {
      return Exited(run.events, 1);
    }
    return Completed(run.events + [HelpMessage]);
  }

  // ---------------------------------------------------------------------------
  // What a run reports
  // ---------------------------------------------------------------------------

  /** The deep links of the `Checking` lines of a transcript, in order. */
  function Checked(events: seq<Event>): seq<string> {
    if events == [] then []
    else (if events[0].Checking? then [events[0].deeplink] else []) + Checked(events[1..])
  }

  lemma {:induction false} CheckedAppend(a: seq<Event>, b: seq<Event>)
    ensures Checked(a + b) == Checked(a) + Checked(b)
    decreases |a|
  {
    if a == [] {
      assert a + b == b;
    } else {
      assert (a + b)[0] == a[0] && (a + b)[1..] == a[1..] + b;
      CheckedAppend(a[1..], b);
    }
  }

  lemma {:induction false} CheckedNone(s: seq<Event>)
    requires forall i :: 0 <= i < |s| ==> !s[i].Checking?
    ensures Checked(s) == []
    decreases |s|
  {
    if s != [] {
      CheckedNone(s[1..]);
    }
  }

  /** The test a deep link must pass to be audited. */
  function IsHttp(deeplink: string): bool {
    Http <= deeplink
  }

  /** The deep links the auditor is meant to check, in order: for each
      activity in turn, its keys that start with `http`, sorted. */
  function AuditedLinks(deeplinks: DeepLinks): seq<string>
  {
    if deeplinks == [] then []
    else Filter(IsHttp, Sort(Keys(deeplinks[0].1))) + AuditedLinks(deeplinks[1..])
  }

  /** In CI mode a deep link passes when it has all four flags and its domain
      authorizes the app. */
  ghost predicate LinkVerified(deeplink: string, flags: Flags, ctx: Context) {
    AllFlags(flags) && RelationList(DalLookup(deeplink, ctx.sha256, ctx.package, ctx.net)).Some?
  }

  /** Every audited deep link of every activity passes. */
  ghost predicate AllVerified(deeplinks: DeepLinks, ctx: Context) {
    forall a, l :: 0 <= a < |deeplinks| && l in Keys(deeplinks[a].1) && IsHttp(l)
                   ==> LinkVerified(l, FlagsOf(deeplinks[a].1, l), ctx)
  }

  /** A transcript that ends in a failure report. */
  predicate EndsInFailure(events: seq<Event>) {
    |events| > 0 && (events[|events| - 1].FlagAbsent? || events[|events| - 1] == DalFailed)
  }

  // ---------------------------------------------------------------------------
  // Properties of one deep link
  // ---------------------------------------------------------------------------

  /** One deep link exits exactly in CI mode when it fails, and an exit is
      reported by a missing flag or a failed relation check. */
  lemma AuditLinkExit(events: seq<Event>, deeplink: string, flags: Flags, ctx: Context)
    ensures AuditLink(events, deeplink, flags, ctx).exited <==> ctx.cicd && !LinkVerified(deeplink, flags, ctx)
    ensures AuditLink(events, deeplink, flags, ctx).exited ==> EndsInFailure(AuditLink(events, deeplink, flags, ctx).events)
  {
    CheckManifestKeysReports(flags, ctx.cicd);
  }

  /** The report of a lookup holds no `Checking` line. */
  lemma LookupUnchecked(l: Lookup)
    ensures Checked(LookupEvents(l)) == []
  {
    var e := LookupEvents(l);
    if l.Authorized? {
      var lines := RelationLines(l.relations);
      RelationLinesAt(l.relations);
      assert e == [DalVerified] + lines;
      forall i | 0 <= i < |e| ensures !e[i].Checking? {
        if i > 0 { assert e[i] == lines[i - 1]; }
      }
    }
    CheckedNone(e);
  }

  /** One deep link adds exactly one `Checking` line, for itself. */
  lemma AuditLinkChecked(events: seq<Event>, deeplink: string, flags: Flags, ctx: Context)
    ensures Checked(AuditLink(events, deeplink, flags, ctx).events) == Checked(events) + [deeplink]
  {
    var fc := CheckManifestKeys(flags, ctx.cicd);
    var lookup := DalLookup(deeplink, ctx.sha256, ctx.package, ctx.net);
    CheckManifestKeysReports(flags, ctx.cicd);
    CheckedNone(fc.events);
    LookupUnchecked(lookup);
    CheckedAppend(events, [Checking(deeplink)]);
    CheckedAppend(events + [Checking(deeplink)], fc.events);
    CheckedAppend(events + [Checking(deeplink)] + fc.events, LookupEvents(lookup));
    assert Checked([Checking(deeplink)]) == [deeplink];
  }

  /** In CI mode a missing flag ends the run before the relation check: after
      the `Checking` line there are only flag reports, the last of them the
      first missing flag. */
  lemma FlagFailureSkipsDal(events: seq<Event>, deeplink: string, flags: Flags, ctx: Context)
    requires ctx.cicd && !AllFlags(flags)
    ensures var r := AuditLink(events, deeplink, flags, ctx);
            && r.exited
            && |events| < |r.events| && r.events[..|events| + 1] == events + [Checking(deeplink)]
            && (forall i :: |events| < i < |r.events| ==> !IsDalEvent(r.events[i]))
            && r.events[|r.events| - 1].FlagAbsent?
            && (forall i :: |events| < i < |r.events| - 1 ==> r.events[i].FlagPresent?)
  {
    var fc := CheckManifestKeys(flags, ctx.cicd);
    var r := AuditLink(events, deeplink, flags, ctx);
    CheckManifestKeysReports(flags, ctx.cicd);
    assert fc.exit;
    var head := events + [Checking(deeplink)];
    assert r.events == head + fc.events;
    assert r.events[..|head|] == head;
    forall i | |head| <= i < |r.events|
      ensures r.events[i] == fc.events[i - |head|]
    {
    }
  }

  /** Outside CI mode the run always goes on: all four flags are reported, in
      order, and the relation check follows whatever they say. */
  lemma NonCiReportsAll(events: seq<Event>, deeplink: string, flags: Flags, ctx: Context)
    requires !ctx.cicd
    ensures var r := AuditLink(events, deeplink, flags, ctx);
            && !r.exited
            && r.events == events + [Checking(deeplink)]
                           + [FlagEvent(flags, AutoVerify), FlagEvent(flags, ViewAction),
                              FlagEvent(flags, BrowsableCategory), FlagEvent(flags, DefaultCategory)]
                           + LookupEvents(DalLookup(deeplink, ctx.sha256, ctx.package, ctx.net))
  {
    var fc := CheckManifestKeys(flags, ctx.cicd);
    CheckManifestKeysReports(flags, ctx.cicd);
    assert fc.events == [FlagEvent(flags, AutoVerify), FlagEvent(flags, ViewAction),
                         FlagEvent(flags, BrowsableCategory), FlagEvent(flags, DefaultCategory)];
  }

  // ---------------------------------------------------------------------------
  // Properties of the deep links of one activity
  // ---------------------------------------------------------------------------

  lemma {:induction false} AuditLinksExit(events: seq<Event>, handlers: Handlers, links: seq<string>, ctx: Context)
    requires forall l :: l in links ==> l in Keys(handlers)
    ensures var r := AuditLinks(Run(events, false), handlers, links, ctx);
            && (r.exited <==> ctx.cicd && exists l :: l in links && IsHttp(l) && !LinkVerified(l, FlagsOf(handlers, l), ctx))
            && (r.exited ==> EndsInFailure(r.events))
    decreases |links|
  {
    if links != [] {
      var next := if IsHttp(links[0]) then AuditLink(events, links[0], FlagsOf(handlers, links[0]), ctx)
                  else Run(events, false);
      assert forall l :: l in links ==> l == links[0] || l in links[1..];
      if IsHttp(links[0]) {
        AuditLinkExit(events, links[0], FlagsOf(handlers, links[0]), ctx);
      }
      if !next.exited {
        AuditLinksExit(next.events, handlers, links[1..], ctx);
      } else {
        assert links[0] in links;
      }
    }
  }

  lemma {:induction false} AuditLinksChecked(events: seq<Event>, handlers: Handlers, links: seq<string>, ctx: Context)
    requires forall l :: l in links ==> l in Keys(handlers)
    ensures var r := AuditLinks(Run(events, false), handlers, links, ctx);
            && (!r.exited ==> Checked(r.events) == Checked(events) + Filter(IsHttp, links))
            && (r.exited ==> IsPrefix(Checked(r.events), Checked(events) + Filter(IsHttp, links)))
    decreases |links|
  {
    if links != [] {
      var next := AuditLinksStep(events, handlers, links, ctx);
      var head := if IsHttp(links[0]) then [links[0]] else [];
      var rest := Filter(IsHttp, links[1..]);
      AppendAssoc(Checked(events), head, rest);
      if !next.exited {
        AuditLinksChecked(next.events, handlers, links[1..], ctx);
      } else {
        PrefixOfAppend(Checked(next.events), Checked(events) + head, rest);
      }
    }
  }

  /** The first step of `AuditLinks`: the run after the first deep link. */
  lemma AuditLinksStep(events: seq<Event>, handlers: Handlers, links: seq<string>, ctx: Context)
    returns (next: Run)
    requires links != [] && forall l :: l in links ==> l in Keys(handlers)
    ensures AuditLinks(Run(events, false), handlers, links, ctx)
            == if next.exited then next else AuditLinks(Run(next.events, false), handlers, links[1..], ctx)
    ensures Checked(next.events) == Checked(events) + (if IsHttp(links[0]) then [links[0]] else [])
    ensures Filter(IsHttp, links) == (if IsHttp(links[0]) then [links[0]] else []) + Filter(IsHttp, links[1..])
  {
    if IsHttp(links[0]) {
      next := AuditLink(events, links[0], FlagsOf(handlers, links[0]), ctx);
      AuditLinkChecked(events, links[0], FlagsOf(handlers, links[0]), ctx);
    } else {
      next := Run(events, false);
    }
  }

  // ---------------------------------------------------------------------------
  // Properties of the activities, and of the whole run
  // ---------------------------------------------------------------------------

  /** Every deep link of the first activity passes, and of the others. */
  lemma AllVerifiedCons(deeplinks: DeepLinks, ctx: Context)
    requires deeplinks != []
    ensures AllVerified(deeplinks, ctx) <==>
            && (forall l :: l in Keys(deeplinks[0].1) && IsHttp(l) ==> LinkVerified(l, FlagsOf(deeplinks[0].1, l), ctx))
            && AllVerified(deeplinks[1..], ctx)
  {
    var tail := deeplinks[1..];
    assert forall a :: 1 <= a < |deeplinks| ==> tail[a - 1] == deeplinks[a];
    if AllVerified(deeplinks, ctx) {
      forall a, l | 0 <= a < |tail| && l in Keys(tail[a].1) && IsHttp(l)
        ensures LinkVerified(l, FlagsOf(tail[a].1, l), ctx)
      {
        assert tail[a] == deeplinks[a + 1];
      }
    }
    if (forall l :: l in Keys(deeplinks[0].1) && IsHttp(l) ==> LinkVerified(l, FlagsOf(deeplinks[0].1, l), ctx))
       && AllVerified(tail, ctx)
    {
      forall a, l | 0 <= a < |deeplinks| && l in Keys(deeplinks[a].1) && IsHttp(l)
        ensures LinkVerified(l, FlagsOf(deeplinks[a].1, l), ctx)
      {
        if a > 0 {
          assert deeplinks[a] == tail[a - 1];
        }
      }
    }
  }

  lemma {:induction false} AuditActivitiesExit(events: seq<Event>, deeplinks: DeepLinks, ctx: Context)
    ensures var r := AuditActivities(Run(events, false), deeplinks, ctx);
            && (r.exited <==> ctx.cicd && !AllVerified(deeplinks, ctx))
            && (r.exited ==> EndsInFailure(r.events))
    decreases |deeplinks|
  {
    if deeplinks != [] {
      var handlers := deeplinks[0].1;
      var started := events + [ActivityHeader(deeplinks[0].0)];
      var links := Sort(Keys(handlers));
      var r1 := AuditLinks(Run(started, false), handlers, links, ctx);
      AuditLinksExit(started, handlers, links, ctx);
      AllVerifiedCons(deeplinks, ctx);
      if !r1.exited {
        AuditActivitiesExit(r1.events, deeplinks[1..], ctx);
      }
    }
  }

  lemma {:induction false} AuditActivitiesChecked(events: seq<Event>, deeplinks: DeepLinks, ctx: Context)
    ensures var r := AuditActivities(Run(events, false), deeplinks, ctx);
            && (!r.exited ==> Checked(r.events) == Checked(events) + AuditedLinks(deeplinks))
            && (r.exited ==> IsPrefix(Checked(r.events), Checked(events) + AuditedLinks(deeplinks)))
    decreases |deeplinks|
  {
    if deeplinks != [] {
      var r1 := AuditActivitiesStep(events, deeplinks, ctx);
      ActivityChecked(events, deeplinks[0].0, deeplinks[0].1, ctx);
      var mine := Filter(IsHttp, Sort(Keys(deeplinks[0].1)));
      var later := AuditedLinks(deeplinks[1..]);
      AppendAssoc(Checked(events), mine, later);
      if !r1.exited {
        AuditActivitiesChecked(r1.events, deeplinks[1..], ctx);
      } else {
        PrefixOfAppend(Checked(r1.events), Checked(events) + mine, later);
      }
    }
  }

  /** The first step of `AuditActivities`: the run after the first activity. */
  lemma AuditActivitiesStep(events: seq<Event>, deeplinks: DeepLinks, ctx: Context) returns (r1: Run)
    requires deeplinks != []
    ensures r1 == AuditLinks(Run(events + [ActivityHeader(deeplinks[0].0)], false), deeplinks[0].1,
                             Sort(Keys(deeplinks[0].1)), ctx)
    ensures AuditActivities(Run(events, false), deeplinks, ctx)
            == if r1.exited then r1 else AuditActivities(Run(r1.events, false), deeplinks[1..], ctx)
  {
    r1 := AuditLinks(Run(events + [ActivityHeader(deeplinks[0].0)], false), deeplinks[0].1,
                     Sort(Keys(deeplinks[0].1)), ctx);
  }

  /** One activity checks its deep links that start with `http`, in sorted
      order: all of them, or those up to the failing one. */
  lemma ActivityChecked(events: seq<Event>, activity: string, handlers: Handlers, ctx: Context)
    ensures var r1 := AuditLinks(Run(events + [ActivityHeader(activity)], false), handlers, Sort(Keys(handlers)), ctx);
            var mine := Filter(IsHttp, Sort(Keys(handlers)));
            && (!r1.exited ==> Checked(r1.events) == Checked(events) + mine)
            && (r1.exited ==> IsPrefix(Checked(r1.events), Checked(events) + mine))
  {
    var started := events + [ActivityHeader(activity)];
    CheckedAppend(events, [ActivityHeader(activity)]);
    assert Checked([ActivityHeader(activity)]) == [];
    assert Checked(started) == Checked(events);
    AuditLinksChecked(started, handlers, Sort(Keys(handlers)), ctx);
  }

  /** How the run ends. With no certificate digest it exits at once; in CI
      mode it completes exactly when every audited deep link has all four
      flags and is authorized by its domain; outside CI mode it always
      completes. An exit has status 1 and is the last thing reported after a
      failure; a completed run ends with the help message. */
  lemma AuditOutcome(deeplinks: DeepLinks, certOutput: string, package: string, cicd: bool, net: Network)
    ensures var o := Audit(deeplinks, certOutput, package, cicd, net);
            var fp := ApkCert.GetSha256CertFingerprint(certOutput);
            && (o.Completed? <==> fp.Some? && (!cicd || AllVerified(deeplinks, Context(fp.value, package, cicd, net))))
            && (!cicd ==> (o.Completed? <==> Contains(certOutput, ApkCert.CertDigestMarker)))
            && (o.Exited? ==> o.status == 1 && (o.events == [FingerprintMissing] || EndsInFailure(o.events)))
            && (o.Completed? ==> |o.events| > 0 && o.events[|o.events| - 1] == HelpMessage)
  {
    var fp := ApkCert.GetSha256CertFingerprint(certOutput);
    if fp.Some? {
      AuditActivitiesExit([FingerprintFound(fp.value)], deeplinks, Context(fp.value, package, cicd, net));
    }
  }

  /** The deep links the run checks are the audited ones, in order: all of
      them when it completes, the ones up to the failing one when it exits. */
  lemma AuditOrder(deeplinks: DeepLinks, certOutput: string, package: string, cicd: bool, net: Network)
    ensures var o := Audit(deeplinks, certOutput, package, cicd, net);
            && (o.Completed? ==> Checked(o.events) == AuditedLinks(deeplinks))
            && (o.Exited? ==> IsPrefix(Checked(o.events), AuditedLinks(deeplinks)))
  {
    var fp := ApkCert.GetSha256CertFingerprint(certOutput);
    if fp.Some? {
      var ctx := Context(fp.value, package, cicd, net);
      var start := [FingerprintFound(fp.value)];
      var run := AuditActivities(Run(start, false), deeplinks, ctx);
      AuditActivitiesChecked(start, deeplinks, ctx);
      var all := AuditedLinks(deeplinks);
      assert Checked(start) == [];
      assert Checked(start) + all == all;
      if !run.exited {
        CheckedAppend(run.events, [HelpMessage]);
        assert Checked([HelpMessage]) == [];
        assert Checked(run.events) + [] == Checked(run.events);
      }
    } else {
      assert Checked([FingerprintMissing]) == [];
    }
  }

  /** `a` is a prefix of `b`. */
  predicate IsPrefix(a: seq<string>, b: seq<string>) {
    |a| <= |b| && b[..|a|] == a
  }

  lemma PrefixOfAppend(a: seq<string>, b: seq<string>, c: seq<string>)
    requires IsPrefix(a, b)
    ensures IsPrefix(a, b + c)
  {
    assert (b + c)[..|a|] == b[..|a|];
  }
}
