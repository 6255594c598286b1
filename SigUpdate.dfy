/** `update_sig`: a full file is fetched only when the mirror has none, or an older one, and
    what it deploys carries the version the TXT record announced. */
module SigUpdate {
  import opened Wrappers
  import opened Text
  import opened Paths
  import opened Manifest
  import opened Integrity
  import opened Pipeline
  import opened Fetching
  import opened Retrying

  /** `update_sig` runs the retry loop exactly when a full update is needed, and otherwise
      leaves everything as it was and reports no loop. */
  lemma UpdateSigRunsIffNeeded(env: Env, s: State, ips: seq<string>, fam: Family, vers: Versions)
    ensures var local := LocalVersion(s.mirror, Name(fam), env.sigtool);
            var u := UpdateSigSpec(env, s, ips, fam, vers);
            if local.Ok? && NeedsFull(local.value, vers.Get(fam)) == Ok(true) then u == Ran(FullUpdate(env, s, ips, fam, vers))
            else u.0 == s && (u.1.Ok? ==> u.1.value.None?)
  {
  }

  /** A family whose full file is missing from the mirror directory is always fetched. */
  lemma MissingFileIsFetched(env: Env, s: State, ips: seq<string>, fam: Family, vers: Versions)
    requires CvdName(Name(fam)) !in s.mirror
    ensures UpdateSigSpec(env, s, ips, fam, vers) == Ran(FullUpdate(env, s, ips, fam, vers))
  {
    assert LocalVersion(s.mirror, Name(fam), env.sigtool) == Ok(None);
  }

  /** A local version that is an integer no smaller than the remote one means no update: no
      request, no change. */
  lemma UpToDateIsUntouched(env: Env, s: State, ips: seq<string>, fam: Family, vers: Versions, lv: string, lo: int, hi: int)
    requires LocalVersion(s.mirror, Name(fam), env.sigtool) == Ok(Some(lv))
    requires ParseInt(lv) == Some(lo) && ParseInt(vers.Get(fam)) == Some(hi) && hi <= lo
    ensures UpdateSigSpec(env, s, ips, fam, vers) == (s, Ok(None))
  {
    NeedsFullCompares(lv, vers.Get(fam), lo, hi);
  }

  /** An older local version means the retry loop runs. */
  lemma OutdatedIsFetched(env: Env, s: State, ips: seq<string>, fam: Family, vers: Versions, lv: string, lo: int, hi: int)
    requires LocalVersion(s.mirror, Name(fam), env.sigtool) == Ok(Some(lv))
    requires ParseInt(lv) == Some(lo) && ParseInt(vers.Get(fam)) == Some(hi) && lo < hi
    ensures UpdateSigSpec(env, s, ips, fam, vers) == Ran(FullUpdate(env, s, ips, fam, vers))
  {
    NeedsFullCompares(lv, vers.Get(fam), lo, hi);
  }

  /** The exceptions of the retry loop: the IndexError of a one-word `Version:` line in a
      downloaded file, or a missing staged file when the kinds of request and deployment differ. */
  lemma {:induction false} RetryErrors(env: Env, s: State, ips: seq<string>, sig: string, version: string, isDiff: bool, pass: nat)
    requires 1 <= pass <= MaxPasses + 1
    ensures var r := RetryFrom(Judger(env, version), s, ips, sig, version, isDiff, pass).1;
            r.Err? ==> r.error == IndexError || r.error == FileNotFound(ArtifactName(sig, isDiff))
    decreases MaxPasses + 1 - pass
  {
    if pass <= MaxPasses {
      var (s1, r) := FetchFrom(Judger(env, version), s, ips, sig, version, None);
      FetchRaisesOnlyIndexError(env, s, ips, sig, version, None);
      if r.Ok? && !r.value.downloaded && r.value.code != Some(404) {
        RetryErrors(env, s1, ips, sig, version, isDiff, pass + 1);
      }
    }
  }

  /** `update_sig` raises a ValueError for a version that is not an integer, the IndexError of
      a one-word `Version:` line, and a missing-file error only when the remote version is
      empty (then the request is for a diff while the deployment is of the full file). */
  lemma UpdateSigErrors(env: Env, s: State, ips: seq<string>, fam: Family, vers: Versions)
    ensures var r := UpdateSigSpec(env, s, ips, fam, vers).1;
            r.Err? ==>
              || r.error == ValueError
              || r.error == IndexError
              || (vers.Get(fam) == "" && r.error == FileNotFound(CvdName(Name(fam))))
  {
    var remote := vers.Get(fam);
    var local := LocalVersion(s.mirror, Name(fam), env.sigtool);
    UpdateSigRunsIffNeeded(env, s, ips, fam, vers);
    if local.Ok? && NeedsFull(local.value, remote) == Ok(true) {
      if remote != "" {
        RetryRaisesOnlyIndexError(env, s, ips, Name(fam), remote, 1);
      } else {
        RetryErrors(env, s, ips, Name(fam), remote, false, 1);
      }
    }
  }

  /** `update_sig` changes the mirror directory at most in the family's full file. */
  lemma UpdateSigMirror(env: Env, s: State, ips: seq<string>, fam: Family, vers: Versions)
    ensures var s' := UpdateSigSpec(env, s, ips, fam, vers).0;
            var name := CvdName(Name(fam));
            s'.mirror == s.mirror || (name in s'.mirror && s'.mirror == s.mirror[name := s'.mirror[name]])
  {
    UpdateSigRunsIffNeeded(env, s, ips, fam, vers);
    RetryMirror(Judger(env, vers.Get(fam)), s, ips, Name(fam), vers.Get(fam), false, 1);
  }

  /** After `update_sig` deploys a full file, sigtool verifies it and the local version is the
      remote one. */
  lemma UpdateSigDeploysRemoteVersion(env: Env, s: State, ips: seq<string>, fam: Family, vers: Versions)
    requires vers.Get(fam) != ""
    ensures var u := UpdateSigSpec(env, s, ips, fam, vers);
            u.1.Ok? && u.1.value.Some? && u.1.value.value.deployed ==>
              && CvdName(Name(fam)) in u.0.mirror
              && env.verify(u.0.mirror[CvdName(Name(fam))])
              && LocalVersion(u.0.mirror, Name(fam), env.sigtool) == Ok(Some(vers.Get(fam)))
  {
    RetryDeploysAccepted(env, s, ips, Name(fam), vers.Get(fam), 1);
  }

  /** A family already at the remote version, a number, is left alone. */
  lemma AtRemoteVersionIsUntouched(env: Env, s: State, ips: seq<string>, fam: Family, vers: Versions)
    requires ParseInt(vers.Get(fam)).Some?
    requires LocalVersion(s.mirror, Name(fam), env.sigtool) == Ok(Some(vers.Get(fam)))
    ensures UpdateSigSpec(env, s, ips, fam, vers) == (s, Ok(None))
  {
    var v := ParseInt(vers.Get(fam)).value;
    UpToDateIsUntouched(env, s, ips, fam, vers, vers.Get(fam), v, v);
  }

  /** Once `update_sig` has deployed a numbered version, running it again for the same record
      changes nothing and makes no request. */
  lemma UpdateSigSettles(env: Env, s: State, ips: seq<string>, fam: Family, vers: Versions, ips2: seq<string>)
    requires ParseInt(vers.Get(fam)).Some?
    requires var r := UpdateSigSpec(env, s, ips, fam, vers).1; r.Ok? && r.value.Some? && r.value.value.deployed
    ensures var s' := UpdateSigSpec(env, s, ips, fam, vers).0;
            UpdateSigSpec(env, s', ips2, fam, vers) == (s', Ok(None))
  {
    BlankIsNotANumber("");
    UpdateSigDeploysRemoteVersion(env, s, ips, fam, vers);
    AtRemoteVersionIsUntouched(env, UpdateSigSpec(env, s, ips, fam, vers).0, ips2, fam, vers);
  }
}
