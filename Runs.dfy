/** `main` as a whole: how a run ends, what it publishes, whom it asks and which files of the
    mirror directory it may rewrite. */
module Runs {
  import opened Wrappers
  import opened Text
  import opened Paths
  import opened Manifest
  import opened Integrity
  import opened Resolver
  import opened Pipeline
  import opened Fetching
  import opened Retrying
  import opened Backfill
  import opened SigUpdate

  // ---------------------------------------------------------------------------
  // create_dns_file

  /** `create_dns_file` writes dns.txt exactly when it is missing or differs from the record. */
  lemma PublishWritesIffChanged(env: Env, s: State, record: string)
    requires HashOk(env.md5)
    ensures Publish(env, s, record).1 <==> DnsFile !in s.mirror || s.mirror[DnsFile] != record
  {
  }

  /** Afterwards dns.txt holds the record and nothing else has changed. */
  lemma PublishLeavesRecord(env: Env, s: State, record: string)
    requires HashOk(env.md5)
    ensures Publish(env, s, record).0 == s.(mirror := s.mirror[DnsFile := record])
  {
    if !Publish(env, s, record).1 {
      assert s.mirror[DnsFile := record] == s.mirror;
    }
  }

  /** Publishing the same record twice writes at most once. */
  lemma PublishIdempotent(env: Env, s: State, record: string)
    requires HashOk(env.md5)
    ensures var s' := Publish(env, s, record).0;
            Publish(env, s', record) == (s', false)
  {
    PublishLeavesRecord(env, s, record);
  }

  // ---------------------------------------------------------------------------
  // What a step may touch

  /** `after` extends the request log `before` with requests to mirrors of `ips` only. */
  ghost predicate Sent(ips: seq<string>, before: seq<Get>, after: seq<Get>) {
    && |before| <= |after|
    && after[..|before|] == before
    && forall i :: |before| <= i < |after| ==> after[i].ip in ips
  }

  /** A diff's file name. */
  predicate IsDiffFile(k: string) {
    |k| >= 6 && k[|k| - 6..] == ".cdiff"
  }

  /** No file of `a` is removed in `b`, only the files named in `names` may change content,
      and a file new in `b` is named in `names` or is a diff. */
  ghost predicate Keeps(a: map<string, string>, b: map<string, string>, names: set<string>) {
    && (forall k :: k in a ==> k in b && (k in names || b[k] == a[k]))
    && (forall k :: k in b && k !in a ==> k in names || IsDiffFile(k))
  }

  /** From `s` to `t` the responses are untouched, every request goes to a mirror of `ips`,
      and only the files named in `names` may be rewritten. */
  ghost predicate Confined(ips: seq<string>, names: set<string>, s: State, t: State) {
    s.net == t.net && Sent(ips, s.log, t.log) && Keeps(s.mirror, t.mirror, names)
  }

  lemma ConfinedTrans(ips: seq<string>, n1: set<string>, n2: set<string>, n: set<string>, a: State, b: State, c: State)
    requires Confined(ips, n1, a, b) && Confined(ips, n2, b, c) && n1 + n2 <= n
    ensures Confined(ips, n, a, c)
  {
    assert c.log[..|a.log|] == c.log[..|b.log|][..|a.log|];
  }

  /** A retry loop sends requests to `ips` only, and the only file of the mirror directory it
      writes, new or not, is its artifact. */
  lemma RetryConfined(judge: Response -> Verdict, s: State, ips: seq<string>, sig: string, version: string, isDiff: bool)
    ensures var s' := RetryFrom(judge, s, ips, sig, version, isDiff, 1).0;
            && Confined(ips, {ArtifactName(sig, isDiff)}, s, s')
            && forall k :: k in s'.mirror ==> k in s.mirror || k == ArtifactName(sig, isDiff)
  {
    RetryRequests(judge, s, ips, sig, version, isDiff, 1);
    RetryMirror(judge, s, ips, sig, version, isDiff, 1);
  }

  lemma CdiffIsDiffFile(sig: string)
    ensures IsDiffFile(CdiffName(sig))
  {
    var k := CdiffName(sig);
    assert k[|k| - 6..] == k[|sig|..];
  }

  /** dns.txt is neither a diff nor any family's full file. */
  lemma DnsFileIsApart(fams: seq<Family>)
    ensures !IsDiffFile(DnsFile) && DnsFile !in FullFiles(fams)
  {
    assert DnsFile[1..] == "ns.txt";
    forall f | f in fams
      ensures CvdName(Name(f)) != DnsFile
    {
      KindsNeverCollide(Name(f), "");
    }
  }

  /** A retry loop that deploys a diff not yet present keeps every file already there. */
  lemma NewDiffKeeps(a: map<string, string>, b: map<string, string>, name: string)
    requires Keeps(a, b, {name}) && name !in a && IsDiffFile(name)
    ensures Keeps(a, b, {})
  {
  }

  /** The backfill only adds diffs: a file already in the mirror directory is never rewritten. */
  lemma {:induction false} BackfillConfined(env: Env, s: State, ips: seq<string>, family: string, n: int, hi: int)
    ensures Confined(ips, {}, s, BackfillFrom(env, s, ips, family, n, hi).0)
    decreases if n <= hi then hi - n + 1 else 0
  {
    if n <= hi {
      var id := DiffId(family, n);
      if CdiffName(id) in s.mirror {
        BackfillConfined(env, s, ips, family, n + 1, hi);
      } else {
        var (s1, r) := UpdateDiffSpec(env, s, ips, id);
        RetryConfined(Judger(env, ""), s, ips, id, "", true);
        CdiffIsDiffFile(id);
        NewDiffKeeps(s.mirror, s1.mirror, CdiffName(id));
        if r.Ok? {
          BackfillConfined(env, s1, ips, family, n + 1, hi);
          ConfinedTrans(ips, {}, {}, {}, s, s1, BackfillFrom(env, s1, ips, family, n + 1, hi).0);
        }
      }
    }
  }

  /** A family's backfill never rewrites a file. */
  lemma BackfillSpecConfined(env: Env, s: State, ips: seq<string>, fam: Family, vers: Versions)
    ensures Confined(ips, {}, s, BackfillSpec(env, s, ips, fam, vers).0)
  {
    var local := LocalVersion(s.mirror, Name(fam), env.sigtool);
    if local.Ok? && local.value.Some? && ParseInt(local.value.value).Some? && ParseInt(vers.Get(fam)).Some? {
      var lo, hi := ParseInt(local.value.value).value, ParseInt(vers.Get(fam)).value;
      BackfillFetchesMissingRange(env, s, ips, fam, vers, local.value.value, lo, hi);
      BackfillIsMissingInOrder(env, s, ips, Name(fam), lo, hi);
      BackfillConfined(env, s, ips, Name(fam), lo, hi);
    } else {
      assert s.log[..|s.log|] == s.log;
    }
  }

  /** `update_sig` rewrites at most the family's full file. */
  lemma UpdateSigConfined(env: Env, s: State, ips: seq<string>, fam: Family, vers: Versions)
    ensures Confined(ips, {CvdName(Name(fam))}, s, UpdateSigSpec(env, s, ips, fam, vers).0)
  {
    UpdateSigRunsIffNeeded(env, s, ips, fam, vers);
    RetryConfined(Judger(env, vers.Get(fam)), s, ips, Name(fam), vers.Get(fam), false);
    assert s.log[..|s.log|] == s.log;
  }

  /** One family's turn rewrites at most that family's full file. */
  lemma FamilyStepConfined(env: Env, s: State, ips: seq<string>, fam: Family, vers: Versions)
    ensures Confined(ips, {CvdName(Name(fam))}, s, FamilyStep(env, s, ips, fam, vers).0)
  {
    var b := if Diffable(fam) then BackfillSpec(env, s, ips, fam, vers) else (s, Ok(()));
    if Diffable(fam) {
      BackfillSpecConfined(env, s, ips, fam, vers);
    } else {
      assert s.log[..|s.log|] == s.log;
    }
    if b.1.Ok? {
      UpdateSigConfined(env, b.0, ips, fam, vers);
      ConfinedTrans(ips, {}, {CvdName(Name(fam))}, {CvdName(Name(fam))}, s, b.0, UpdateSigSpec(env, b.0, ips, fam, vers).0);
    }
  }

  /** The exceptions of one family's turn: IndexError, ValueError, or the missing staged full
      file of a family whose remote version is empty. */
  lemma FamilyStepErrors(env: Env, s: State, ips: seq<string>, fam: Family, vers: Versions)
    ensures var r := FamilyStep(env, s, ips, fam, vers).1;
            r.Err? ==>
              || r.error == IndexError
              || r.error == ValueError
              || (vers.Get(fam) == "" && r.error == FileNotFound(CvdName(Name(fam))))
  {
    var b := if Diffable(fam) then BackfillSpec(env, s, ips, fam, vers) else (s, Ok(()));
    if Diffable(fam) {
      BackfillSpecErrors(env, s, ips, fam, vers);
    }
    if b.1.Ok? {
      UpdateSigErrors(env, b.0, ips, fam, vers);
    }
  }

  /** A family whose local version is not older than the remote one, and whose diffs from
      the local version on are all present, is left as it is and raises nothing. */
  lemma FamilyUpToDate(env: Env, s: State, ips: seq<string>, fam: Family, vers: Versions, lv: string, lo: int, hi: int)
    requires LocalVersion(s.mirror, Name(fam), env.sigtool) == Ok(Some(lv))
    requires ParseInt(lv) == Some(lo) && ParseInt(vers.Get(fam)) == Some(hi) && hi <= lo
    requires Diffable(fam) ==> forall m :: lo <= m <= hi ==> CdiffName(DiffId(Name(fam), m)) in s.mirror
    ensures FamilyStep(env, s, ips, fam, vers) == (s, Ok(()))
  {
    if Diffable(fam) {
      BackfillAllPresentIsNoop(env, s, ips, fam, vers, lv, lo, hi);
    }
    UpToDateIsUntouched(env, s, ips, fam, vers, lv, lo, hi);
  }

  /** The family loop raises a missing-file error only for a visited family whose remote
      version is empty; its other exceptions are IndexError and ValueError. */
  lemma {:induction false} FamiliesErrors(env: Env, s: State, ips: seq<string>, fams: seq<Family>, vers: Versions)
    ensures var r := FamiliesFrom(env, s, ips, fams, vers).1;
            r.Err? ==>
              || r.error == IndexError
              || r.error == ValueError
              || exists i :: 0 <= i < |fams| && vers.Get(fams[i]) == "" && r.error == FileNotFound(CvdName(Name(fams[i])))
    decreases |fams|
  {
    if fams != [] {
      var (s1, r) := FamilyStep(env, s, ips, fams[0], vers);
      FamilyStepErrors(env, s, ips, fams[0], vers);
      if r.Ok? {
        FamiliesErrors(env, s1, ips, fams[1..], vers);
        var e := FamiliesFrom(env, s1, ips, fams[1..], vers).1;
        if e.Err? && e.error.FileNotFound? {
          var i :| 0 <= i < |fams[1..]| && vers.Get(fams[1..][i]) == "" && e.error == FileNotFound(CvdName(Name(fams[1..][i])));
          assert fams[1..][i] == fams[i + 1];
        }
      }
    }
  }

  /** The names of the families' full files. */
  function FullFiles(fams: seq<Family>): (r: set<string>)
    ensures forall f :: f in fams ==> CvdName(Name(f)) in r
  {
    set f | f in fams :: CvdName(Name(f))
  }

  /** The family loop rewrites at most the full files of the families it visits. */
  lemma {:induction false} FamiliesConfined(env: Env, s: State, ips: seq<string>, fams: seq<Family>, vers: Versions)
    ensures Confined(ips, FullFiles(fams), s, FamiliesFrom(env, s, ips, fams, vers).0)
    decreases |fams|
  {
    if fams == [] {
      assert s.log[..|s.log|] == s.log;
    } else {
      var (s1, r) := FamilyStep(env, s, ips, fams[0], vers);
      FamilyStepConfined(env, s, ips, fams[0], vers);
      if r.Ok? {
        FamiliesConfined(env, s1, ips, fams[1..], vers);
        assert FullFiles(fams[1..]) <= FullFiles(fams) by {
          forall f | f in fams[1..] ensures f in fams { }
        }
        ConfinedTrans(ips, {CvdName(Name(fams[0]))}, FullFiles(fams[1..]), FullFiles(fams), s, s1, FamiliesFrom(env, s1, ips, fams[1..], vers).0);
      } else {
        assert {CvdName(Name(fams[0]))} <= FullFiles(fams);
      }
    }
  }

  // ---------------------------------------------------------------------------
  // main

  /** The files a run may rewrite: the four full files and dns.txt. */
  function Replaceable(): (r: set<string>)
    ensures DnsFile in r && forall f :: CvdName(Name(f)) in r
  {
    FullFiles(Families) + {DnsFile}
  }

  /** Without an address after five lookups, `main` exits with status 2 before anything else. */
  lemma NoAddressExits(env: Env, s: State)
    requires forall j :: 0 <= j < AddrPasses ==> env.addrAnswers(j) == []
    ensures RunSpec(env, s) == (s, Exited(2))
  {
  }

  /** Without a TXT record after four lookups, `main` exits with status 3 before any download. */
  lemma NoRecordExits(env: Env, s: State)
    requires exists j :: 0 <= j < AddrPasses && env.addrAnswers(j) != []
    requires forall j :: 0 <= j < RecordPasses ==> env.txtAnswers(j) == ""
    ensures RunSpec(env, s) == (s, Exited(3))
  {
    var q := FirstAnswer(env.addrAnswers, 0, AddrPasses);
    var j :| 0 <= j < AddrPasses && env.addrAnswers(j) != [];
    assert q.Answered?;
  }

  /** A record with fewer than eight colon-separated fields raises IndexError before any download. */
  lemma ShortRecordCrashes(env: Env, s: State)
    requires FirstAnswer(env.addrAnswers, 0, AddrPasses).Answered?
    requires var q := FirstAnswer(env.txtAnswers, 0, RecordPasses); q.Answered? && |Split(q.value, ':')| < 8
    ensures RunSpec(env, s) == (s, Crashed(IndexError))
  {
  }

  /** A run that exits with status 0 leaves dns.txt holding the record it fetched. */
  lemma CompletedRunPublishesRecord(env: Env, s: State)
    requires HashOk(env.md5)
    ensures var (s', out) := RunSpec(env, s);
            out == Exited(0) ==>
              && FirstAnswer(env.txtAnswers, 0, RecordPasses).Answered?
              && DnsFile in s'.mirror
              && s'.mirror[DnsFile] == FirstAnswer(env.txtAnswers, 0, RecordPasses).value
  {
    var q, t := FirstAnswer(env.addrAnswers, 0, AddrPasses), FirstAnswer(env.txtAnswers, 0, RecordPasses);
    if q.Answered? && t.Answered? && ParseRecord(t.value).Ok? {
      var (s1, r) := FamiliesFrom(env, s, q.value, Families, ParseRecord(t.value).value);
      PublishLeavesRecord(env, s1, t.value);
    }
  }

  /** A run consumes no response it did not ask for and asks only the mirrors the hostname
      resolved to. It removes no file from the mirror directory, rewrites at most the four full
      files and dns.txt (a diff already present is never fetched again), and every file it adds
      is one of those or a diff. */
  lemma RunConfined(env: Env, s: State)
    ensures var s' := RunSpec(env, s).0;
            var q := FirstAnswer(env.addrAnswers, 0, AddrPasses);
            if q.Answered? then Confined(q.value, Replaceable(), s, s') else s' == s
  {
    var q, t := FirstAnswer(env.addrAnswers, 0, AddrPasses), FirstAnswer(env.txtAnswers, 0, RecordPasses);
    if q.Answered? {
      var ips := q.value;
      if t.Answered? && ParseRecord(t.value).Ok? {
        var vers := ParseRecord(t.value).value;
        var (s1, r) := FamiliesFrom(env, s, ips, Families, vers);
        FamiliesConfined(env, s, ips, Families, vers);
        if r.Ok? {
          var s2 := Publish(env, s1, t.value).0;
          assert Confined(ips, {DnsFile}, s1, s2) by {
            assert s2.log[..|s1.log|] == s1.log;
          }
          ConfinedTrans(ips, FullFiles(Families), {DnsFile}, Replaceable(), s, s1, s2);
        } else {
          assert FullFiles(Families) <= Replaceable();
        }
      } else {
        assert s.log[..|s.log|] == s.log;
      }
    }
  }

  /** The process exits with 0, 1, 2, 3 or 254. It exits with 254, the status of the lock
      handler, only when a family's remote version in the record is empty: `copy_sig` is then
      told to move a full file that `download_sig` never staged. */
  lemma LockExitNeedsEmptyVersion(env: Env, s: State)
    ensures var status := ProcessExit(RunSpec(env, s).1);
            && (status == 0 || status == 1 || status == AddrExit || status == RecordExit || status == LockExit)
            && (status == LockExit ==>
                  var t := FirstAnswer(env.txtAnswers, 0, RecordPasses);
                  && t.Answered? && ParseRecord(t.value).Ok?
                  && exists i :: 0 <= i < |Families| && ParseRecord(t.value).value.Get(Families[i]) == "")
  {
    var q, t := FirstAnswer(env.addrAnswers, 0, AddrPasses), FirstAnswer(env.txtAnswers, 0, RecordPasses);
    if q.Answered? && t.Answered? && ParseRecord(t.value).Ok? {
      FamiliesErrors(env, s, q.value, Families, ParseRecord(t.value).value);
    }
  }

  /** A run that does not exit with status 0 leaves dns.txt as it was: the record is published
      only after every family has been brought up to date. */
  lemma UnfinishedRunKeepsDnsFile(env: Env, s: State)
    ensures var (s', out) := RunSpec(env, s);
            out != Exited(0) ==>
              && (DnsFile in s'.mirror <==> DnsFile in s.mirror)
              && (DnsFile in s.mirror ==> s'.mirror[DnsFile] == s.mirror[DnsFile])
  {
    var q, t := FirstAnswer(env.addrAnswers, 0, AddrPasses), FirstAnswer(env.txtAnswers, 0, RecordPasses);
    if q.Answered? && t.Answered? && ParseRecord(t.value).Ok? {
      FamiliesConfined(env, s, q.value, Families, ParseRecord(t.value).value);
      DnsFileIsApart(Families);
    }
  }
}
