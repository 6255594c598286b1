/** The update pipeline of clamavmirror.py as functions of the state they act on: `download_sig`,
    the retry loops of `update_sig` and `update_diff`, `copy_sig`, the diff backfill and the family
    loop of `main`, `create_dns_file`, and `main` itself. The class MirrorSync.Mirror runs the same
    steps imperatively and is proved to agree with these functions. */
module Pipeline {
  import opened Wrappers
  import opened Text
  import opened Paths
  import opened Manifest
  import opened Integrity
  import opened Resolver
  import opened Transfer

  /** One HTTP request to a mirror: `urlopen` returned, with its status code and the successive
      `read` results of the body; or it raised URLError, with the code an HTTPError carries. */
  datatype Response = Served(status: int, chunks: seq<string>) | Refused(code: Option<int>)

  /** A request as it leaves the process: the mirror's address and the URL path. */
  datatype Get = Get(ip: string, path: string)

  /** What a run reads and changes. `work` and `mirror` are the two directories. `log` records
      the requests made so far, in order. `net` scripts the responses: request number `i` of the
      run (counting from 0) gets `Nth(net, i)`, and once the script is used up every request fails
      without a code. */
  datatype State = State(work: map<string, string>, mirror: map<string, string>, net: seq<Response>, log: seq<Get>)

  /** The outside world that does not change during a run: the DNS answers, what `sigtool -i`
      prints and whether it exits with 0 for a file's content, and the MD5 hex digest. */
  datatype Env = Env(
    addrAnswers: nat -> seq<string>,
    txtAnswers: nat -> string,
    sigtool: string -> seq<string>,
    verify: string -> bool,
    md5: string -> string)

  /** What the model requires of the digest: different strings have different digests, and a
      digest is never the empty string. */
  ghost predicate HashOk(md5: string -> string) {
    && (forall a, b :: md5(a) == md5(b) ==> a == b)
    && (forall a :: md5(a) != "")
  }

  // ---------------------------------------------------------------------------
  // The network

  /** Response number `j` of the script. */
  function Nth(net: seq<Response>, j: nat): Response {
    if j < |net| then net[j] else Refused(None)
  }

  // ---------------------------------------------------------------------------
  // download_sig

  /** `download_sig` was asked for a full file exactly when its `version` argument is truthy; a
      diff download passes None, modelled as "". */
  predicate IsDiffRequest(version: string) { version == "" }

  /** How one mirror's response ends the attempt: accepted, rejected (try the next mirror), or
      an exception that leaves `download_sig`. */
  datatype Verdict = Pass | Fail | Abort(error: Crash)

  /** A diff is accepted once its body is read; a full file only if sigtool verifies it and the
      version it reports is the expected version string. */
  function Judge(env: Env, version: string, resp: Response): Verdict {
    match resp
    case Refused(_) => Fail
    case Served(_, chunks) =>
      if IsDiffRequest(version) then Pass
      else
        var body := Body(chunks);
        if !env.verify(body) then Fail
        else match VersionOfOutput(env.sigtool(body))
          case Err(e) => Abort(e)
          case Ok(v) => if v == Some(version) then Pass else Fail
  }

  /** The `code` local after an attempt: the status of a served response, the code of an HTTP
      error, and otherwise unchanged. */
  function NextCode(code: Option<int>, resp: Response): Option<int> {
    match resp
    case Served(c, _) => Some(c)
    case Refused(c) => if c.Some? then c else code
  }

  /** One turn of `download_sig`'s loop up to the judgement: `urlopen` of
      `http://<ip>/<artifact>`, which is logged and gets the next response of the script, and,
      when it is served, the body read into the work directory under the artifact's name. The
      mirror directory is not touched. */
  function Attempt(s: State, ip: string, sig: string, version: string): (a: (State, Response))
    ensures a.1 == Nth(s.net, |s.log|)
    ensures a.0.log == s.log + [Get(ip, UrlPath(sig, IsDiffRequest(version)))]
    ensures a.0.net == s.net && a.0.mirror == s.mirror
    ensures a.0.work == if a.1.Served? then s.work[ArtifactName(sig, IsDiffRequest(version)) := Body(a.1.chunks)] else s.work
  {
    var resp := Nth(s.net, |s.log|);
    var s1 := s.(log := s.log + [Get(ip, UrlPath(sig, IsDiffRequest(version)))]);
    if resp.Served? then (s1.(work := s1.work[ArtifactName(sig, IsDiffRequest(version)) := Body(resp.chunks)]), resp)
    else (s1, resp)
  }

  /** The test `download_sig` applies to each response when asked for `version`. */
  function Judger(env: Env, version: string): Response -> Verdict {
    resp => Judge(env, version, resp)
  }

  /** `(downloaded, code)` as `download_sig` returns them. */
  datatype Fetch = Fetch(downloaded: bool, code: Option<int>)

  /** `download_sig` over the mirrors `ips` still to try, with `code` the code seen so far and
      `judge` the test of a response (`Judger(env, version)` in every call of the program). */
  function FetchFrom(judge: Response -> Verdict, s: State, ips: seq<string>, sig: string, version: string, code: Option<int>): (State, Result<Fetch, Crash>)
    decreases |ips|
  {
    if ips == [] then (s, Ok(Fetch(false, code)))
    else
      var a := Attempt(s, ips[0], sig, version);
      var code' := NextCode(code, a.1);
      match judge(a.1)
      case Pass => (a.0, Ok(Fetch(true, code')))
      case Abort(e) => (a.0, Err(e))
      case Fail => FetchFrom(judge, a.0, ips[1..], sig, version, code')
  }

  // ---------------------------------------------------------------------------
  // copy_sig, update_sig, update_diff

  /** `copy_sig`: move the staged file of that name into the mirror directory (`shutil.move`
      raises when the staged file is not there). */
  function Deploy(s: State, name: string): (State, Result<(), Crash>) {
    if name in s.work then (s.(work := s.work - {name}, mirror := s.mirror[name := s.work[name]]), Ok(()))
    else (s, Err(FileNotFound(name)))
  }

  const MaxPasses: nat := 5

  /** How a retry loop ended: the number of passes, and whether the last one deployed. */
  datatype Passes = Passes(count: nat, deployed: bool)

  /** The `for passno in range(1, 6)` loop of `update_sig` and `update_diff`, from pass `pass`:
      deploy on the first successful download, give up at once on a 404, otherwise try again.
      `judge` is `Judger(env, version)` in both callers. */
  function RetryFrom(judge: Response -> Verdict, s: State, ips: seq<string>, sig: string, version: string, isDiff: bool, pass: nat): (State, Result<Passes, Crash>)
    requires 1 <= pass <= MaxPasses + 1
    decreases MaxPasses + 1 - pass
  {
    if pass > MaxPasses then (s, Ok(Passes(MaxPasses, false)))
    else
      var (s1, r) := FetchFrom(judge, s, ips, sig, version, None);
      match r
      case Err(e) => (s1, Err(e))
      case Ok(f) =>
        if f.downloaded then
          var (s2, d) := Deploy(s1, ArtifactName(sig, isDiff));
          (s2, if d.Err? then Err(d.error) else Ok(Passes(pass, true)))
        else if f.code == Some(404) then (s1, Ok(Passes(pass, false)))
        else RetryFrom(judge, s1, ips, sig, version, isDiff, pass + 1)
  }

  /** `update_diff(opts, addrs, sig)`. */
  function UpdateDiffSpec(env: Env, s: State, ips: seq<string>, sig: string): (State, Result<Passes, Crash>) {
    RetryFrom(Judger(env, ""), s, ips, sig, "", true, 1)
  }

  /** The condition of `update_sig`: `localver is None or (localver and int(localver) < int(remotever))`. */
  function NeedsFull(local: Option<string>, remote: string): (r: Result<bool, Crash>)
    ensures r.Err? ==> r.error == ValueError
    ensures local.None? ==> r == Ok(true)
    ensures local.Some? && local.value != "" ==>
              (r.Ok? <==> ParseInt(local.value).Some? && ParseInt(remote).Some?)
    ensures local.Some? && local.value != "" && r.Ok? ==>
              (r.value <==> ParseInt(local.value).value < ParseInt(remote).value)
  {
    if local.None? then Ok(true)
    else if local.value == "" then Ok(false)
    else
      var lo, hi := ParseInt(local.value), ParseInt(remote);
      if lo.Some? && hi.Some? then Ok(lo.value < hi.value) else Err(ValueError)
  }

  /** With both versions integers, a full update is needed exactly when the local one is older. */
  lemma NeedsFullCompares(local: string, remote: string, lo: int, hi: int)
    requires local != "" && ParseInt(local) == Some(lo) && ParseInt(remote) == Some(hi)
    ensures NeedsFull(Some(local), remote) == Ok(lo < hi)
  {
  }

  /** `update_sig(options, addrs, sign, vers)`: the retry loop runs only when a full update is
      needed; the result says how it ended, or None when it did not run. */
  function UpdateSigSpec(env: Env, s: State, ips: seq<string>, fam: Family, vers: Versions): (State, Result<Option<Passes>, Crash>) {
    match LocalVersion(s.mirror, Name(fam), env.sigtool)
    case Err(e) => (s, Err(e))
    case Ok(local) =>
      match NeedsFull(local, vers.Get(fam))
      case Err(e) => (s, Err(e))
      case Ok(needed) =>
        if !needed then (s, Ok(None)) else Ran(FullUpdate(env, s, ips, fam, vers))
  }

  /** The retry loop of `update_sig`: `download_sig` is given the remote version, `copy_sig`
      deploys the full file. */
  function FullUpdate(env: Env, s: State, ips: seq<string>, fam: Family, vers: Versions): (State, Result<Passes, Crash>) {
    RetryFrom(Judger(env, vers.Get(fam)), s, ips, Name(fam), vers.Get(fam), false, 1)
  }

  /** The outcome of a retry loop that ran. */
  function Ran(x: (State, Result<Passes, Crash>)): (State, Result<Option<Passes>, Crash>) {
    (x.0, if x.1.Err? then Err(x.1.error) else Ok(Some(x.1.value)))
  }

  // ---------------------------------------------------------------------------
  // main

  /** The `for num in range(int(localver), int(remotever) + 1)` loop of `main`, from `num == n`:
      each diff not yet in the mirror directory is fetched with `update_diff`. */
  function BackfillFrom(env: Env, s: State, ips: seq<string>, family: string, n: int, hi: int): (State, Result<(), Crash>)
    decreases if n <= hi then hi - n + 1 else 0
  {
    if n > hi then (s, Ok(()))
    else
      var id := DiffId(family, n);
      if CdiffName(id) in s.mirror then BackfillFrom(env, s, ips, family, n + 1, hi)
      else
        var (s1, r) := UpdateDiffSpec(env, s, ips, id);
        if r.Err? then (s1, Err(r.error)) else BackfillFrom(env, s1, ips, family, n + 1, hi)
  }

  /** The diff part of `main`'s loop body, for a family other than main. */
  function BackfillSpec(env: Env, s: State, ips: seq<string>, fam: Family, vers: Versions): (State, Result<(), Crash>) {
    match LocalVersion(s.mirror, Name(fam), env.sigtool)
    case Err(e) => (s, Err(e))
    case Ok(None) => (s, Ok(()))
    case Ok(Some(local)) =>
      var lo, hi := ParseInt(local), ParseInt(vers.Get(fam));
      if lo.Some? && hi.Some? then BackfillFrom(env, s, ips, Name(fam), lo.value, hi.value)
      else (s, Err(ValueError))
  }

  /** One turn of `main`'s family loop: the backfill (not for main), then `update_sig`. */
  function FamilyStep(env: Env, s: State, ips: seq<string>, fam: Family, vers: Versions): (State, Result<(), Crash>) {
    var (s1, r1) := if Diffable(fam) then BackfillSpec(env, s, ips, fam, vers) else (s, Ok(()));
    if r1.Err? then (s1, r1)
    else
      var (s2, r2) := UpdateSigSpec(env, s1, ips, fam, vers);
      (s2, if r2.Err? then Err(r2.error) else Ok(()))
  }

  /** `main`'s family loop over the families still to visit. */
  function FamiliesFrom(env: Env, s: State, ips: seq<string>, fams: seq<Family>, vers: Versions): (State, Result<(), Crash>)
    decreases |fams|
  {
    if fams == [] then (s, Ok(()))
    else
      var (s1, r) := FamilyStep(env, s, ips, fams[0], vers);
      if r.Err? then (s1, r) else FamiliesFrom(env, s1, ips, fams[1..], vers)
  }

  /** The digest `get_file_md5` gives a file of the mirror directory: '' when it is missing. */
  function FileMd5(env: Env, dir: map<string, string>, name: string): string {
    if name in dir then env.md5(dir[name]) else ""
  }

  /** `create_dns_file`: write the record to dns.txt unless the digests agree; the flag says
      whether the file was written. */
  function Publish(env: Env, s: State, record: string): (State, bool) {
    if FileMd5(env, s.mirror, DnsFile) != env.md5(record) then (s.(mirror := s.mirror[DnsFile := record]), true)
    else (s, false)
  }

  /** How a run ends: `sys.exit(status)`, or an exception that escapes `main`. */
  datatype RunOutcome = Exited(status: int) | Crashed(error: Crash)

  /** The status of the lock handler around `main`, which catches IOError. */
  const LockExit: int := 254

  /** The status the process exits with: `main`'s own `sys.exit`; LockExit for the missing staged
      file of `copy_sig`, an IOError that the lock handler catches; 1, the interpreter's status
      for an uncaught exception, for IndexError and ValueError. */
  function ProcessExit(out: RunOutcome): int {
    match out
    case Exited(status) => status
    case Crashed(FileNotFound(_)) => LockExit
    case Crashed(_) => 1
  }

  /** `main(options)`. */
  function RunSpec(env: Env, s: State): (State, RunOutcome) {
    match FirstAnswer(env.addrAnswers, 0, AddrPasses)
    case Exhausted(_) => (s, Exited(AddrExit))
    case Answered(ips, _) =>
      match FirstAnswer(env.txtAnswers, 0, RecordPasses)
      case Exhausted(_) => (s, Exited(RecordExit))
      case Answered(record, _) =>
        match ParseRecord(record)
        case Err(e) => (s, Crashed(e))
        case Ok(vers) =>
          var (s1, r) := FamiliesFrom(env, s, ips, Families, vers);
          if r.Err? then (s1, Crashed(r.error))
          else (Publish(env, s1, record).0, Exited(0))
  }
}
