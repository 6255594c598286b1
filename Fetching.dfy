/** What `download_sig` does, stated without its recursion: the mirrors are tried in list order,
    one request each, up to the first whose response settles the download; nothing in the mirror
    directory changes; a failed download reports the last code seen. */
module Fetching {
  import opened Wrappers
  import opened Paths
  import opened Integrity
  import opened Transfer
  import opened Pipeline

  /** The index of the first response from number `from` on, below `stop`, that does not reject
      the download; `stop` when all of them do. */
  function FirstSettled(judge: Response -> Verdict, net: seq<Response>, from: nat, stop: nat): (j: nat)
    requires from <= stop
    ensures from <= j <= stop
    ensures forall i :: from <= i < j ==> judge(Nth(net, i)) == Fail
    ensures j < stop ==> judge(Nth(net, j)) != Fail
    decreases stop - from
  {
    if from == stop || judge(Nth(net, from)) != Fail then from
    else FirstSettled(judge, net, from + 1, stop)
  }

  /** How many requests `download_sig` makes over `n` mirrors when the next request is number
      `from`: up to and including the first response that settles the download, or one per
      mirror when none does. */
  function Asked(judge: Response -> Verdict, net: seq<Response>, from: nat, n: nat): (k: nat)
    ensures k <= n
    ensures n > 0 ==> k > 0
  {
    var j := FirstSettled(judge, net, from, from + n);
    if j < from + n then j + 1 - from else n
  }

  /** A rejected first response costs one request more than the search after it. */
  lemma AskedStep(judge: Response -> Verdict, net: seq<Response>, from: nat, n: nat)
    requires n > 0 && judge(Nth(net, from)) == Fail
    ensures Asked(judge, net, from, n) == Asked(judge, net, from + 1, n - 1) + 1
  {
    assert FirstSettled(judge, net, from, from + n) == FirstSettled(judge, net, from + 1, from + n);
  }

  /** The code of the last of the responses `from` .. `stop - 1` that carried one, else `code`. */
  function LastCode(code: Option<int>, net: seq<Response>, from: nat, stop: nat): Option<int>
    requires from <= stop
    decreases stop - from
  {
    if stop == from then code
    else match Nth(net, stop - 1)
      case Served(c, _) => Some(c)
      case Refused(c) => if c.Some? then c else LastCode(code, net, from, stop - 1)
  }

  /** `download_sig`'s running `code`: folding NextCode over the first response and then the
      rest gives the last code. */
  lemma {:induction false} LastCodeStep(code: Option<int>, net: seq<Response>, from: nat, stop: nat)
    requires from < stop
    ensures LastCode(code, net, from, stop) == LastCode(NextCode(code, Nth(net, from)), net, from + 1, stop)
    decreases stop - from
  {
    if from + 1 < stop {
      LastCodeStep(code, net, from, stop - 1);
    }
  }

  /** One request to each of the first `k` mirrors, in the order of `ips`. */
  function Gets(ips: seq<string>, path: string, k: nat): (r: seq<Get>)
    requires k <= |ips|
    ensures |r| == k
    decreases k
  {
    if k == 0 then [] else Gets(ips, path, k - 1) + [Get(ips[k - 1], path)]
  }

  /** Asking the first mirror and then the first `k` of the rest is asking the first `k + 1`. */
  lemma {:induction false} GetsCons(ips: seq<string>, path: string, k: nat)
    requires k < |ips|
    ensures [Get(ips[0], path)] + Gets(ips[1..], path, k) == Gets(ips, path, k + 1)
    decreases k
  {
    if k > 0 {
      GetsCons(ips, path, k - 1);
    }
  }

  /** Request `i` of the first `k` is the one to mirror `ips[i]`. */
  lemma {:induction false} GetsAt(ips: seq<string>, path: string, k: nat, i: nat)
    requires i < k <= |ips|
    ensures Gets(ips, path, k)[i] == Get(ips[i], path)
    decreases k
  {
    if i < k - 1 {
      GetsAt(ips, path, k - 1, i);
    }
  }

  /** The requests of `download_sig`: the mirrors `ips[0]` .. `ips[k - 1]` are asked, in order,
      one request each, and no others, where `k` counts up to the response that settles the
      download. */
  lemma {:induction false} FetchRequests(judge: Response -> Verdict, s: State, ips: seq<string>, sig: string, version: string, code: Option<int>)
    ensures FetchFrom(judge, s, ips, sig, version, code).0.log
            == s.log + Gets(ips, UrlPath(sig, IsDiffRequest(version)), Asked(judge, s.net, |s.log|, |ips|))
    decreases |ips|
  {
    var path := UrlPath(sig, IsDiffRequest(version));
    if ips != [] {
      var (s2, resp) := Attempt(s, ips[0], sig, version);
      if judge(resp) == Fail {
        FetchRequests(judge, s2, ips[1..], sig, version, NextCode(code, resp));
        var k' := Asked(judge, s2.net, |s2.log|, |ips| - 1);
        AskedStep(judge, s.net, |s.log|, |ips|);
        GetsCons(ips, path, k');
        var rest := Gets(ips[1..], path, k');
        assert s.log + [Get(ips[0], path)] + rest == s.log + ([Get(ips[0], path)] + rest);
      } else {
        assert Asked(judge, s.net, |s.log|, |ips|) == 1;
        assert Gets(ips, path, 1) == [Get(ips[0], path)];
      }
    }
  }

  /** `download_sig` writes only to the work directory: the mirror directory is left as it was. */
  lemma {:induction false} FetchKeepsMirror(judge: Response -> Verdict, s: State, ips: seq<string>, sig: string, version: string, code: Option<int>)
    ensures var s' := FetchFrom(judge, s, ips, sig, version, code).0;
            s'.mirror == s.mirror && s'.net == s.net
    decreases |ips|
  {
    if ips != [] {
      var (s2, resp) := Attempt(s, ips[0], sig, version);
      if judge(resp) == Fail {
        FetchKeepsMirror(judge, s2, ips[1..], sig, version, NextCode(code, resp));
      }
    }
  }

  /** `after` extends the request log `before` with requests to mirrors of `ips` for `path` only. */
  predicate Within(ips: seq<string>, path: string, before: seq<Get>, after: seq<Get>) {
    && |before| <= |after|
    && after[..|before|] == before
    && forall i :: |before| <= i < |after| ==> after[i].ip in ips && after[i].path == path
  }

  lemma WithinTrans(ips: seq<string>, path: string, a: seq<Get>, b: seq<Get>, c: seq<Get>)
    requires Within(ips, path, a, b) && Within(ips, path, b, c)
    ensures Within(ips, path, a, c)
  {
    assert c[..|a|] == c[..|b|][..|a|];
  }

  /** Appending requests to mirrors of `ips` keeps the log within them, request `i` of those
      appended going to mirror `ips[i]`. */
  lemma GetsWithin(ips: seq<string>, path: string, k: nat, before: seq<Get>)
    requires k <= |ips|
    ensures Within(ips, path, before, before + Gets(ips, path, k))
    ensures var after := before + Gets(ips, path, k);
            forall i :: |before| <= i < |after| ==> after[i] == Get(ips[i - |before|], path)
  {
    var after := before + Gets(ips, path, k);
    assert after[..|before|] == before;
    forall i | |before| <= i < |after|
      ensures after[i] == Get(ips[i - |before|], path)
    {
      GetsAt(ips, path, k, i - |before|);
    }
  }

  /** `download_sig` asks each entry of `ips` at most once: its `i`-th request goes to mirror
      `ips[i]`. It asks at least one mirror when there is one, and asks for the artifact's path
      only. */
  lemma FetchWithin(judge: Response -> Verdict, s: State, ips: seq<string>, sig: string, version: string, code: Option<int>)
    ensures var s' := FetchFrom(judge, s, ips, sig, version, code).0;
            && Within(ips, UrlPath(sig, IsDiffRequest(version)), s.log, s'.log)
            && |s'.log| <= |s.log| + |ips|
            && (forall i :: |s.log| <= i < |s'.log| ==> s'.log[i] == Get(ips[i - |s.log|], UrlPath(sig, IsDiffRequest(version))))
            && (ips != [] ==> |s'.log| > |s.log|)
  {
    FetchRequests(judge, s, ips, sig, version, code);
    GetsWithin(ips, UrlPath(sig, IsDiffRequest(version)), Asked(judge, s.net, |s.log|, |ips|), s.log);
  }

  /** How many requests one `download_sig` call makes: between one and `|ips|`, none without a
      mirror. */
  lemma FetchLength(judge: Response -> Verdict, s: State, ips: seq<string>, sig: string, version: string, code: Option<int>)
    ensures var n := |FetchFrom(judge, s, ips, sig, version, code).0.log|;
            && n <= |s.log| + |ips|
            && (ips != [] ==> n > |s.log|)
  {
    FetchWithin(judge, s, ips, sig, version, code);
  }

  /** `download_sig` writes to the work directory under the artifact's name only. */
  lemma {:induction false} FetchWorkFrame(judge: Response -> Verdict, s: State, ips: seq<string>, sig: string, version: string, code: Option<int>)
    ensures var s' := FetchFrom(judge, s, ips, sig, version, code).0;
            var name := ArtifactName(sig, IsDiffRequest(version));
            s'.work == s.work || (name in s'.work && s'.work == s.work[name := s'.work[name]])
    decreases |ips|
  {
    if ips != [] {
      var (s2, resp) := Attempt(s, ips[0], sig, version);
      if judge(resp) == Fail {
        FetchWorkFrame(judge, s2, ips[1..], sig, version, NextCode(code, resp));
      }
    }
  }

  /** What `download_sig` returns when its requests are numbered `from` .. `stop - 1`: with `j`
      the first response that does not reject the download, a success with the last code seen
      when it passes, the exception raised while judging it, and a failure with the last code
      seen when every mirror rejected the download. */
  function FetchResult(judge: Response -> Verdict, net: seq<Response>, code: Option<int>, from: nat, stop: nat): Result<Fetch, Crash>
    requires from <= stop
  {
    var j := FirstSettled(judge, net, from, stop);
    if j == stop then Ok(Fetch(false, LastCode(code, net, from, stop)))
    else if judge(Nth(net, j)).Pass? then Ok(Fetch(true, LastCode(code, net, from, j + 1)))
    else Err(judge(Nth(net, j)).error)
  }

  /** A rejected first response only feeds its code forward. */
  lemma FetchResultStep(judge: Response -> Verdict, net: seq<Response>, code: Option<int>, from: nat, stop: nat)
    requires from < stop && judge(Nth(net, from)) == Fail
    ensures FetchResult(judge, net, code, from, stop) == FetchResult(judge, net, NextCode(code, Nth(net, from)), from + 1, stop)
  {
    var j := FirstSettled(judge, net, from, stop);
    assert j == FirstSettled(judge, net, from + 1, stop);
    LastCodeStep(code, net, from, if j == stop then stop else j + 1);
  }

  /** The result of `download_sig` is its closed form. */
  lemma {:induction false} FetchOutcome(judge: Response -> Verdict, s: State, ips: seq<string>, sig: string, version: string, code: Option<int>)
    ensures FetchFrom(judge, s, ips, sig, version, code).1 == FetchResult(judge, s.net, code, |s.log|, |s.log| + |ips|)
    decreases |ips|
  {
    if ips != [] {
      var n := |s.log|;
      var (s2, resp) := Attempt(s, ips[0], sig, version);
      if judge(resp) == Fail {
        FetchOutcome(judge, s2, ips[1..], sig, version, NextCode(code, resp));
        FetchResultStep(judge, s.net, code, n, n + |ips|);
      } else {
        assert FirstSettled(judge, s.net, n, n + |ips|) == n;
        assert LastCode(code, s.net, n, n + 1) == NextCode(code, resp);
      }
    }
  }

  /** Only a served response passes: a passing download's code is the status of the response
      that passed, and a passing full file verifies and reports the expected version. */
  lemma PassIsServed(env: Env, version: string, resp: Response)
    requires Judge(env, version, resp) == Pass
    ensures resp.Served? && NextCode(None, resp) == Some(resp.status)
    ensures forall code :: NextCode(code, resp) == Some(resp.status)
    ensures !IsDiffRequest(version) ==>
              env.verify(Body(resp.chunks)) && VersionOfOutput(env.sigtool(Body(resp.chunks))) == Ok(Some(version))
  {
  }

  /** A successful download stops at the response that passed, the last one requested; when
      that response was served, its body is what is staged under the artifact's name. */
  lemma {:induction false} FetchStopsAtPass(judge: Response -> Verdict, s: State, ips: seq<string>, sig: string, version: string, code: Option<int>)
    requires var r := FetchFrom(judge, s, ips, sig, version, code).1;
             r.Ok? && r.value.downloaded
    ensures var s' := FetchFrom(judge, s, ips, sig, version, code).0;
            |s.log| < |s'.log| <= |s.log| + |ips|
    ensures var s' := FetchFrom(judge, s, ips, sig, version, code).0;
            var last := Nth(s.net, |s'.log| - 1);
            var name := ArtifactName(sig, IsDiffRequest(version));
            && judge(last) == Pass
            && (last.Served? ==> name in s'.work && s'.work[name] == Body(last.chunks))
    decreases |ips|
  {
    var (s2, resp) := Attempt(s, ips[0], sig, version);
    if judge(resp) == Fail {
      FetchStopsAtPass(judge, s2, ips[1..], sig, version, NextCode(code, resp));
    }
  }

  /** A successful download leaves the accepted file staged: for a full file, one that sigtool
      verifies and whose version is the expected one. */
  lemma {:induction false} FetchStagesAcceptedFile(env: Env, s: State, ips: seq<string>, sig: string, version: string, code: Option<int>)
    requires var r := FetchFrom(Judger(env, version), s, ips, sig, version, code).1;
             r.Ok? && r.value.downloaded
    ensures var s' := FetchFrom(Judger(env, version), s, ips, sig, version, code).0;
            var name := ArtifactName(sig, IsDiffRequest(version));
            && name in s'.work
            && (IsDiffRequest(version) || (env.verify(s'.work[name]) && VersionOfOutput(env.sigtool(s'.work[name])) == Ok(Some(version))))
    decreases |ips|
  {
    var (s2, resp) := Attempt(s, ips[0], sig, version);
    if Judge(env, version, resp) == Fail {
      FetchStagesAcceptedFile(env, s2, ips[1..], sig, version, NextCode(code, resp));
    }
  }

  /** The only exception `download_sig` lets out is the IndexError of a `Version:` line with a
      single word, so a diff download never raises. */
  lemma {:induction false} FetchRaisesOnlyIndexError(env: Env, s: State, ips: seq<string>, sig: string, version: string, code: Option<int>)
    ensures var r := FetchFrom(Judger(env, version), s, ips, sig, version, code).1;
            r.Err? ==> !IsDiffRequest(version) && r.error == IndexError
    decreases |ips|
  {
    if ips != [] {
      var (s2, resp) := Attempt(s, ips[0], sig, version);
      if Judge(env, version, resp) == Fail {
        FetchRaisesOnlyIndexError(env, s2, ips[1..], sig, version, NextCode(code, resp));
      }
    }
  }

  /** A full file that verifies but reports another version is rejected like a broken one. */
  lemma StaleVersionRejected(env: Env, version: string, status: int, chunks: seq<string>, other: string)
    requires version != "" && other != version
    requires env.verify(Body(chunks))
    requires VersionOfOutput(env.sigtool(Body(chunks))) == Ok(Some(other))
    ensures Judge(env, version, Served(status, chunks)) == Fail
  {
  }

  /** Three mirrors, the first two rejecting the download and the third serving a file that
      passes: the download succeeds at the third mirror, with its status, after one request to
      each mirror, in order. */
  lemma FailoverToThirdMirror(judge: Response -> Verdict, s: State, ips: seq<string>, sig: string, version: string)
    requires |ips| == 3
    requires judge(Nth(s.net, |s.log|)) == Fail && judge(Nth(s.net, |s.log| + 1)) == Fail
    requires judge(Nth(s.net, |s.log| + 2)) == Pass && Nth(s.net, |s.log| + 2).Served?
    ensures var (s', r) := FetchFrom(judge, s, ips, sig, version, None);
            var path := UrlPath(sig, IsDiffRequest(version));
            && r == Ok(Fetch(true, Some(Nth(s.net, |s.log| + 2).status)))
            && s'.log == s.log + [Get(ips[0], path), Get(ips[1], path), Get(ips[2], path)]
  {
    var n := |s.log|;
    assert FirstSettled(judge, s.net, n + 2, n + 3) == n + 2;
    assert FirstSettled(judge, s.net, n + 1, n + 3) == n + 2;
    assert FirstSettled(judge, s.net, n, n + 3) == n + 2;
    FetchRequests(judge, s, ips, sig, version, None);
    FetchOutcome(judge, s, ips, sig, version, None);
    var path := UrlPath(sig, IsDiffRequest(version));
    assert Gets(ips, path, 3) == [Get(ips[0], path), Get(ips[1], path), Get(ips[2], path)];
  }
}
