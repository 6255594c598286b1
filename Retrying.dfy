/** The retry loops of `update_sig` and `update_diff`: at most five passes of `download_sig`,
    one deployment at most, on the first successful pass, and an early stop on a 404. */
module Retrying {
  import opened Wrappers
  import opened Paths
  import opened Integrity
  import opened Pipeline
  import opened Fetching
  import opened Transfer

  /** The requests of successive passes, pass number `i` asking the first `ks[i]` mirrors of
      `ips`, in order. */
  function Rounds(ips: seq<string>, path: string, ks: seq<nat>): seq<Get>
    requires forall i :: 0 <= i < |ks| ==> ks[i] <= |ips|
    decreases |ks|
  {
    if ks == [] then [] else Gets(ips, path, ks[0]) + Rounds(ips, path, ks[1..])
  }

  /** Every request of the loop goes to a mirror of `ips` for the artifact, the responses are
      not consumed, and the loop makes at most `|ips|` requests for each pass left. */
  lemma {:induction false} RetryRequests(judge: Response -> Verdict, s: State, ips: seq<string>, sig: string, version: string, isDiff: bool, pass: nat)
    requires 1 <= pass <= MaxPasses + 1
    ensures var s' := RetryFrom(judge, s, ips, sig, version, isDiff, pass).0;
            && s'.net == s.net
            && Within(ips, UrlPath(sig, IsDiffRequest(version)), s.log, s'.log)
            && |s'.log| <= |s.log| + (MaxPasses + 1 - pass) * |ips|
    decreases MaxPasses + 1 - pass
  {
    var path := UrlPath(sig, IsDiffRequest(version));
    if pass <= MaxPasses {
      var (s1, r) := FetchFrom(judge, s, ips, sig, version, None);
      FetchWithin(judge, s, ips, sig, version, None);
      FetchKeepsMirror(judge, s, ips, sig, version, None);
      if r.Ok? && !r.value.downloaded && r.value.code != Some(404) {
        RetryRequests(judge, s1, ips, sig, version, isDiff, pass + 1);
        var s' := RetryFrom(judge, s1, ips, sig, version, isDiff, pass + 1).0;
        WithinTrans(ips, path, s.log, s1.log, s'.log);
        assert (MaxPasses + 1 - pass) * |ips| == (MaxPasses - pass) * |ips| + |ips|;
      }
    }
  }

  /** Whether a pass of `download_sig` from `s` leaves the loop going on: it did not crash,
      did not download, and its last code is not a 404. */
  predicate Continues(judge: Response -> Verdict, s: State, ips: seq<string>, sig: string, version: string) {
    var r := FetchFrom(judge, s, ips, sig, version, None).1;
    r.Ok? && !r.value.downloaded && r.value.code != Some(404)
  }

  /** One pass of the loop: it either goes on to the next pass from the state `download_sig`
      left, or it ends there with the log of that call and a count of this pass. */
  lemma RetryStep(judge: Response -> Verdict, s: State, ips: seq<string>, sig: string, version: string, isDiff: bool, pass: nat)
    requires 1 <= pass <= MaxPasses
    ensures Continues(judge, s, ips, sig, version) ==>
              RetryFrom(judge, s, ips, sig, version, isDiff, pass)
              == RetryFrom(judge, FetchFrom(judge, s, ips, sig, version, None).0, ips, sig, version, isDiff, pass + 1)
    ensures !Continues(judge, s, ips, sig, version) ==>
              var u := RetryFrom(judge, s, ips, sig, version, isDiff, pass);
              u.0.log == FetchFrom(judge, s, ips, sig, version, None).0.log && (u.1.Ok? ==> u.1.value.count == pass)
  {
  }

  /** The number of mirrors each pass of the loop asks, in pass order, one entry per call of
      `download_sig`: `download_sig` stops at the first mirror whose response is accepted or not
      rejected, so a pass asks between one mirror and all of them, and the loop makes at least
      one call and at most one per pass left, however it ends. */
  function PassSizes(judge: Response -> Verdict, s: State, ips: seq<string>, sig: string, version: string, isDiff: bool, pass: nat): (ks: seq<nat>)
    requires 1 <= pass <= MaxPasses + 1
    ensures forall i :: 0 <= i < |ks| ==> ks[i] <= |ips| && (ips != [] ==> ks[i] > 0)
    ensures |ks| <= MaxPasses + 1 - pass
    ensures pass <= MaxPasses ==> |ks| >= 1
    decreases MaxPasses + 1 - pass
  {
    if pass > MaxPasses then []
    else
      var (s1, r) := FetchFrom(judge, s, ips, sig, version, None);
      var k := Asked(judge, s.net, |s.log|, |ips|);
      if r.Ok? && !r.value.downloaded && r.value.code != Some(404)
      then [k] + PassSizes(judge, s1, ips, sig, version, isDiff, pass + 1)
      else [k]
  }

  /** The requests of the loop, pass by pass: pass number `i` asks the first `PassSizes[i]`
      mirrors in list order, one request to each. */
  lemma {:induction false} RetryRounds(judge: Response -> Verdict, s: State, ips: seq<string>, sig: string, version: string, isDiff: bool, pass: nat)
    requires 1 <= pass <= MaxPasses + 1
    ensures RetryFrom(judge, s, ips, sig, version, isDiff, pass).0.log
            == s.log + Rounds(ips, UrlPath(sig, IsDiffRequest(version)), PassSizes(judge, s, ips, sig, version, isDiff, pass))
    decreases MaxPasses + 1 - pass
  {
    var path := UrlPath(sig, IsDiffRequest(version));
    if pass <= MaxPasses {
      var s1 := FetchFrom(judge, s, ips, sig, version, None).0;
      var k := Asked(judge, s.net, |s.log|, |ips|);
      FetchRequests(judge, s, ips, sig, version, None);
      RetryStep(judge, s, ips, sig, version, isDiff, pass);
      PassSizesStep(judge, s, ips, sig, version, isDiff, pass);
      if Continues(judge, s, ips, sig, version) {
        var ks' := PassSizes(judge, s1, ips, sig, version, isDiff, pass + 1);
        RetryRounds(judge, s1, ips, sig, version, isDiff, pass + 1);
        RoundsCons(ips, path, k, ks');
        AppendChain(RetryFrom(judge, s, ips, sig, version, isDiff, pass).0.log, s.log, s1.log, Gets(ips, path, k), Rounds(ips, path, ks'), Rounds(ips, path, [k] + ks'));
      } else {
        RoundsCons(ips, path, k, []);
        AppendEmpty(Gets(ips, path, k));
      }
    } else {
      AppendEmpty(s.log);
    }
  }

  lemma PassSizesStep(judge: Response -> Verdict, s: State, ips: seq<string>, sig: string, version: string, isDiff: bool, pass: nat)
    requires 1 <= pass <= MaxPasses
    ensures var k := Asked(judge, s.net, |s.log|, |ips|);
            PassSizes(judge, s, ips, sig, version, isDiff, pass)
            == if Continues(judge, s, ips, sig, version)
               then [k] + PassSizes(judge, FetchFrom(judge, s, ips, sig, version, None).0, ips, sig, version, isDiff, pass + 1)
               else [k]
  {
  }

  lemma AppendEmpty<T>(a: seq<T>)
    ensures a + [] == a
  {
  }

  /** `u` is `a` followed by `rest` when `u` extends `m`, which extends `a`, and `rest` is the
      two extensions in turn. */
  lemma AppendChain<T>(u: seq<T>, a: seq<T>, m: seq<T>, g: seq<T>, r: seq<T>, rest: seq<T>)
    requires u == m + r && m == a + g && rest == g + r
    ensures u == a + rest
  {
  }

  lemma RoundsCons(ips: seq<string>, path: string, k: nat, ks: seq<nat>)
    requires k <= |ips| && forall i :: 0 <= i < |ks| ==> ks[i] <= |ips|
    ensures Rounds(ips, path, [k] + ks) == Gets(ips, path, k) + Rounds(ips, path, ks)
  {
    assert ([k] + ks)[1..] == ks;
  }

  /** `PassSizes` has one entry per `download_sig` call, which is the pass count reported. */
  lemma {:induction false} PassSizesCount(judge: Response -> Verdict, s: State, ips: seq<string>, sig: string, version: string, isDiff: bool, pass: nat)
    requires 1 <= pass <= MaxPasses + 1
    ensures var r := RetryFrom(judge, s, ips, sig, version, isDiff, pass).1;
            r.Ok? ==> |PassSizes(judge, s, ips, sig, version, isDiff, pass)| == r.value.count + 1 - pass
    decreases MaxPasses + 1 - pass
  {
    if pass <= MaxPasses {
      RetryStep(judge, s, ips, sig, version, isDiff, pass);
      PassSizesStep(judge, s, ips, sig, version, isDiff, pass);
      if Continues(judge, s, ips, sig, version) {
        PassSizesCount(judge, FetchFrom(judge, s, ips, sig, version, None).0, ips, sig, version, isDiff, pass + 1);
      }
    }
  }

  /** The loop reports a pass count between its first pass and the fifth. */
  lemma {:induction false} RetryCount(judge: Response -> Verdict, s: State, ips: seq<string>, sig: string, version: string, isDiff: bool, pass: nat)
    requires 1 <= pass <= MaxPasses
    ensures var r := RetryFrom(judge, s, ips, sig, version, isDiff, pass).1;
            r.Ok? ==> pass <= r.value.count <= MaxPasses
    decreases MaxPasses + 1 - pass
  {
    var (s1, r) := FetchFrom(judge, s, ips, sig, version, None);
    if pass < MaxPasses && r.Ok? && !r.value.downloaded && r.value.code != Some(404) {
      RetryCount(judge, s1, ips, sig, version, isDiff, pass + 1);
    }
  }

  lemma MulStep(a: nat, n: nat)
    ensures (a + 1) * n == a * n + n
  {
  }

  /** The pass count is the number of `download_sig` calls made: with at least one mirror, each
      call made between one and `|ips|` requests. */
  lemma {:induction false} RetryCalls(judge: Response -> Verdict, s: State, ips: seq<string>, sig: string, version: string, isDiff: bool, pass: nat)
    requires 1 <= pass <= MaxPasses
    ensures var (s', r) := RetryFrom(judge, s, ips, sig, version, isDiff, pass);
            r.Ok? && pass <= r.value.count ==>
              && |s'.log| <= |s.log| + (r.value.count + 1 - pass) * |ips|
              && (ips != [] ==> |s'.log| >= |s.log| + (r.value.count + 1 - pass))
    decreases MaxPasses + 1 - pass
  {
    var s1 := FetchFrom(judge, s, ips, sig, version, None).0;
    FetchLength(judge, s, ips, sig, version, None);
    RetryStep(judge, s, ips, sig, version, isDiff, pass);
    if Continues(judge, s, ips, sig, version) {
      var (s', c) := RetryFrom(judge, s1, ips, sig, version, isDiff, pass + 1);
      if pass < MaxPasses {
        RetryCalls(judge, s1, ips, sig, version, isDiff, pass + 1);
        RetryCount(judge, s1, ips, sig, version, isDiff, pass + 1);
        if c.Ok? {
          MulStep(c.value.count - pass, |ips|);
        }
      } else {
        assert s' == s1 && c == Ok(Passes(MaxPasses, false));
      }
    }
  }

  /** The mirror directory changes only by the deployment of the artifact, and only when the
      loop reports one. */
  lemma {:induction false} RetryMirror(judge: Response -> Verdict, s: State, ips: seq<string>, sig: string, version: string, isDiff: bool, pass: nat)
    requires 1 <= pass <= MaxPasses + 1
    ensures var (s', r) := RetryFrom(judge, s, ips, sig, version, isDiff, pass);
            var name := ArtifactName(sig, isDiff);
            if r.Ok? && r.value.deployed then name in s'.mirror && s'.mirror == s.mirror[name := s'.mirror[name]]
            else s'.mirror == s.mirror
    decreases MaxPasses + 1 - pass
  {
    if pass <= MaxPasses {
      var (s1, r) := FetchFrom(judge, s, ips, sig, version, None);
      FetchKeepsMirror(judge, s, ips, sig, version, None);
      if r.Ok? && !r.value.downloaded && r.value.code != Some(404) {
        RetryMirror(judge, s1, ips, sig, version, isDiff, pass + 1);
      }
    }
  }

  /** A deploying loop deploys after its last request, whose response passed; a served one
      is what lands in the mirror directory under the artifact's name. */
  lemma {:induction false} RetryDeploysLast(judge: Response -> Verdict, s: State, ips: seq<string>, sig: string, version: string, pass: nat)
    requires 1 <= pass <= MaxPasses + 1
    ensures var (s', r) := RetryFrom(judge, s, ips, sig, version, IsDiffRequest(version), pass);
            r.Ok? && r.value.deployed ==> |s'.log| > |s.log|
    ensures var (s', r) := RetryFrom(judge, s, ips, sig, version, IsDiffRequest(version), pass);
            var name := ArtifactName(sig, IsDiffRequest(version));
            r.Ok? && r.value.deployed ==>
              var last := Nth(s.net, |s'.log| - 1);
              && judge(last) == Pass
              && name in s'.mirror
              && (last.Served? ==> s'.mirror[name] == Body(last.chunks))
    decreases MaxPasses + 1 - pass
  {
    if pass <= MaxPasses {
      var (s1, r) := FetchFrom(judge, s, ips, sig, version, None);
      if r.Ok? && r.value.downloaded {
        FetchStopsAtPass(judge, s, ips, sig, version, None);
      } else if r.Ok? && r.value.code != Some(404) {
        FetchWithin(judge, s, ips, sig, version, None);
        FetchKeepsMirror(judge, s, ips, sig, version, None);
        RetryDeploysLast(judge, s1, ips, sig, version, pass + 1);
      }
    }
  }

  /** What the loop deploys is what `download_sig` accepted: the body of the response to the
      loop's last request, which was served and passed; for a full file, a body that sigtool
      verifies and whose version is the expected one. */
  lemma RetryDeploysAccepted(env: Env, s: State, ips: seq<string>, sig: string, version: string, pass: nat)
    requires 1 <= pass <= MaxPasses + 1
    ensures var (s', r) := RetryFrom(Judger(env, version), s, ips, sig, version, IsDiffRequest(version), pass);
            r.Ok? && r.value.deployed ==> |s'.log| > |s.log|
    ensures var isDiff := IsDiffRequest(version);
            var (s', r) := RetryFrom(Judger(env, version), s, ips, sig, version, isDiff, pass);
            var name := ArtifactName(sig, isDiff);
            r.Ok? && r.value.deployed ==>
              var last := Nth(s.net, |s'.log| - 1);
              && last.Served?
              && Judge(env, version, last) == Pass
              && name in s'.mirror
              && s'.mirror[name] == Body(last.chunks)
              && (isDiff || (env.verify(s'.mirror[name]) && VersionOfOutput(env.sigtool(s'.mirror[name])) == Ok(Some(version))))
  {
    var judge := Judger(env, version);
    RetryDeploysLast(judge, s, ips, sig, version, pass);
    var u := RetryFrom(judge, s, ips, sig, version, IsDiffRequest(version), pass);
    if u.1.Ok? && u.1.value.deployed {
      var last := Nth(s.net, |u.0.log| - 1);
      assert judge(last) == Judge(env, version, last);
      AcceptedBody(env, version, last, u.0.mirror[ArtifactName(sig, IsDiffRequest(version))]);
    }
  }

  /** Content standing for a passed response is that response's body, and for a full file one
      that sigtool verifies at the expected version. */
  lemma AcceptedBody(env: Env, version: string, last: Response, content: string)
    requires Judge(env, version, last) == Pass
    requires last.Served? ==> content == Body(last.chunks)
    ensures last.Served? && content == Body(last.chunks)
    ensures !IsDiffRequest(version) ==>
              env.verify(content) && VersionOfOutput(env.sigtool(content)) == Ok(Some(version))
  {
    PassIsServed(env, version, last);
  }

  /** With the artifact kind matching the request, the loop raises nothing but the IndexError
      of a one-word `Version:` line: the staged file is always there to deploy, and a diff
      update never raises. */
  lemma {:induction false} RetryRaisesOnlyIndexError(env: Env, s: State, ips: seq<string>, sig: string, version: string, pass: nat)
    requires 1 <= pass <= MaxPasses + 1
    ensures var r := RetryFrom(Judger(env, version), s, ips, sig, version, IsDiffRequest(version), pass).1;
            r.Err? ==> !IsDiffRequest(version) && r.error == IndexError
    decreases MaxPasses + 1 - pass
  {
    var judge := Judger(env, version);
    if pass <= MaxPasses {
      var (s1, r) := FetchFrom(judge, s, ips, sig, version, None);
      FetchRaisesOnlyIndexError(env, s, ips, sig, version, None);
      if r.Ok? && r.value.downloaded {
        FetchStagesAcceptedFile(env, s, ips, sig, version, None);
      } else if r.Ok? && r.value.code != Some(404) {
        RetryRaisesOnlyIndexError(env, s1, ips, sig, version, pass + 1);
      }
    }
  }

  /** `update_sig` with an empty remote version: `download_sig` treats the call as a diff
      request and stages `<sig>.cdiff`, but `copy_sig` is told to move `<sig>.cvd`; with no such
      file staged the move raises. */
  lemma EmptyVersionDeploysMissingFile(env: Env, s: State, ips: seq<string>, sig: string)
    requires CvdName(sig) !in s.work
    requires var r := FetchFrom(Judger(env, ""), s, ips, sig, "", None).1;
             r.Ok? && r.value.downloaded
    ensures RetryFrom(Judger(env, ""), s, ips, sig, "", false, 1).1 == Err(FileNotFound(CvdName(sig)))
  {
    FetchWorkFrame(Judger(env, ""), s, ips, sig, "", None);
    KindsNeverCollide(sig, sig);
  }

  /** The other case of an empty remote version: when a `<sig>.cvd` is still staged, left in
      the work directory by an earlier download whose verification failed, `copy_sig` moves that
      file into the mirror directory once the diff download succeeds, without it being verified
      again. */
  lemma EmptyVersionDeploysStaleFile(env: Env, s: State, ips: seq<string>, sig: string)
    requires CvdName(sig) in s.work
    requires var r := FetchFrom(Judger(env, ""), s, ips, sig, "", None).1;
             r.Ok? && r.value.downloaded
    ensures var (s', r) := RetryFrom(Judger(env, ""), s, ips, sig, "", false, 1);
            && r == Ok(Passes(1, true))
            && s'.mirror == s.mirror[CvdName(sig) := s.work[CvdName(sig)]]
  {
    FetchWorkFrame(Judger(env, ""), s, ips, sig, "", None);
    FetchKeepsMirror(Judger(env, ""), s, ips, sig, "", None);
    KindsNeverCollide(sig, sig);
  }

  /** Once the script is used up every request fails without a code and nothing is staged. */
  lemma {:induction false} FetchPastScript(env: Env, s: State, ips: seq<string>, sig: string, version: string, code: Option<int>)
    requires |s.log| >= |s.net|
    ensures var (s', r) := FetchFrom(Judger(env, version), s, ips, sig, version, code);
            && r == Ok(Fetch(false, code))
            && |s'.log| == |s.log| + |ips|
            && s'.work == s.work && s'.mirror == s.mirror && s'.net == s.net
    decreases |ips|
  {
    if ips != [] {
      var (s2, resp) := Attempt(s, ips[0], sig, version);
      assert resp == Refused(None);
      FetchPastScript(env, s2, ips[1..], sig, version, code);
    }
  }

  /** Mirrors that never answer: every pass asks every mirror, and the loop gives up after the
      fifth pass without deploying anything. */
  lemma {:induction false} UnreachableMirrorsUseAllPasses(env: Env, s: State, ips: seq<string>, sig: string, version: string, isDiff: bool, pass: nat)
    requires 1 <= pass <= MaxPasses + 1
    requires |s.log| >= |s.net|
    ensures var (s', r) := RetryFrom(Judger(env, version), s, ips, sig, version, isDiff, pass);
            && r == Ok(Passes(MaxPasses, false))
            && |s'.log| == |s.log| + (MaxPasses + 1 - pass) * |ips|
            && s'.mirror == s.mirror
    decreases MaxPasses + 1 - pass
  {
    if pass <= MaxPasses {
      var (s1, r) := FetchFrom(Judger(env, version), s, ips, sig, version, None);
      FetchPastScript(env, s, ips, sig, version, None);
      UnreachableMirrorsUseAllPasses(env, s1, ips, sig, version, isDiff, pass + 1);
      MulStep(MaxPasses - pass, |ips|);
    }
  }

  /** Every mirror answering 404: the first pass asks each mirror once and the loop stops there,
      without a second pass and without deploying anything. */
  lemma NotFoundStopsAfterOnePass(env: Env, s: State, ips: seq<string>, sig: string, version: string, isDiff: bool, pass: nat)
    requires 1 <= pass <= MaxPasses && ips != []
    requires forall i :: |s.log| <= i < |s.log| + |ips| ==> Nth(s.net, i) == Refused(Some(404))
    ensures var (s', r) := RetryFrom(Judger(env, version), s, ips, sig, version, isDiff, pass);
            && r == Ok(Passes(pass, false))
            && |s'.log| == |s.log| + |ips|
            && s'.mirror == s.mirror
  {
    var judge := Judger(env, version);
    var n := |s.log|;
    AllRejectedBy(judge, s.net, n, n + |ips|);
    FetchOutcome(judge, s, ips, sig, version, None);
    FetchRequests(judge, s, ips, sig, version, None);
    FetchKeepsMirror(judge, s, ips, sig, version, None);
    assert LastCode(None, s.net, n, n + |ips|) == Some(404);
  }

  /** A pass in which no mirror settles the download asks every mirror once, in order: a 404
      does not cut the pass short. The loop then stops without deploying exactly when the last
      code of the pass is 404 (a later response without a code keeps it, any later code replaces
      it), and otherwise goes on with the next pass. */
  lemma NotFoundStopsIffLastCode(judge: Response -> Verdict, s: State, ips: seq<string>, sig: string, version: string, isDiff: bool, pass: nat)
    requires 1 <= pass <= MaxPasses
    requires FirstSettled(judge, s.net, |s.log|, |s.log| + |ips|) == |s.log| + |ips|
    ensures var s1 := FetchFrom(judge, s, ips, sig, version, None).0;
            var last := LastCode(None, s.net, |s.log|, |s.log| + |ips|);
            var u := RetryFrom(judge, s, ips, sig, version, isDiff, pass);
            && s1.log == s.log + Gets(ips, UrlPath(sig, IsDiffRequest(version)), |ips|)
            && (last == Some(404) ==> u == (s1, Ok(Passes(pass, false))))
            && (last != Some(404) && pass < MaxPasses ==> u == RetryFrom(judge, s1, ips, sig, version, isDiff, pass + 1))
            && (pass < MaxPasses ==> (u.1 == Ok(Passes(pass, false)) <==> last == Some(404)))
  {
    var s1 := FetchFrom(judge, s, ips, sig, version, None).0;
    FetchOutcome(judge, s, ips, sig, version, None);
    FetchRequests(judge, s, ips, sig, version, None);
    if pass < MaxPasses {
      RetryCount(judge, s1, ips, sig, version, isDiff, pass + 1);
    }
  }

  /** The first of two mirrors answers 404 and the second does not answer at all: the pass
      still asks the second, the 404 stays the last code, and the loop stops. */
  lemma NotFoundThenUnreachableStops(env: Env, s: State, ips: seq<string>, sig: string, version: string, isDiff: bool)
    requires |ips| == 2
    requires Nth(s.net, |s.log|) == Refused(Some(404)) && Nth(s.net, |s.log| + 1) == Refused(None)
    ensures var u := RetryFrom(Judger(env, version), s, ips, sig, version, isDiff, 1);
            u.1 == Ok(Passes(1, false)) && |u.0.log| == |s.log| + 2
  {
    var n := |s.log|;
    forall i | n <= i < n + 2
      ensures Judger(env, version)(Nth(s.net, i)) == Fail
    {
      assert i == n || i == n + 1;
    }
    AllRejectedBy(Judger(env, version), s.net, n, n + 2);
    assert LastCode(None, s.net, n, n + 2) == Some(404);
    NotFoundStopsIffLastCode(Judger(env, version), s, ips, sig, version, isDiff, 1);
  }

  /** The first of two mirrors answers 404 and the second fails with HTTP 500: the 500 is the
      last code, so the loop goes on with a second pass. */
  lemma NotFoundThenServerErrorRetries(env: Env, s: State, ips: seq<string>, sig: string, version: string, isDiff: bool)
    requires |ips| == 2
    requires Nth(s.net, |s.log|) == Refused(Some(404)) && Nth(s.net, |s.log| + 1) == Refused(Some(500))
    ensures var s1 := FetchFrom(Judger(env, version), s, ips, sig, version, None).0;
            RetryFrom(Judger(env, version), s, ips, sig, version, isDiff, 1)
              == RetryFrom(Judger(env, version), s1, ips, sig, version, isDiff, 2)
  {
    var n := |s.log|;
    forall i | n <= i < n + 2
      ensures Judger(env, version)(Nth(s.net, i)) == Fail
    {
      assert i == n || i == n + 1;
    }
    AllRejectedBy(Judger(env, version), s.net, n, n + 2);
    assert LastCode(None, s.net, n, n + 2) == Some(500);
    NotFoundStopsIffLastCode(Judger(env, version), s, ips, sig, version, isDiff, 1);
  }

  /** When every response in a range is a refusal, none settles a download. */
  lemma {:induction false} AllRejectedBy(judge: Response -> Verdict, net: seq<Response>, from: nat, stop: nat)
    requires from <= stop
    requires forall i :: from <= i < stop ==> judge(Nth(net, i)) == Fail
    ensures FirstSettled(judge, net, from, stop) == stop
    decreases stop - from
  {
    if from < stop {
      AllRejectedBy(judge, net, from + 1, stop);
    }
  }
}
