/** The mirror as the program runs it: the two directories and the request log are fields that
    the methods below update step by step, each method the loop of clamavmirror.py it is named
    after, and each proved to end in the state and result its function in Pipeline gives. */
module MirrorSync {
  import opened Wrappers
  import opened Text
  import opened Paths
  import opened Manifest
  import opened Integrity
  import opened Resolver
  import opened Transfer
  import opened Pipeline

  class Mirror {
    /** The DNS, sigtool and digest oracles, fixed for the run. */
    const env: Env
    /** The scripted responses of the mirrors, in the order the requests are made. */
    const net: seq<Response>
    /** `opts.workdir`: where downloads are staged. */
    var work: map<string, string>
    /** `opts.mirrordir`: what is served to clients. */
    var mirror: map<string, string>
    /** Every request made so far. */
    var log: seq<Get>

    /** The state the functions of Pipeline act on. */
    function St(): State
      reads this
    {
      State(work, mirror, net, log)
    }

    constructor (env: Env, work: map<string, string>, mirror: map<string, string>, net: seq<Response>)
      ensures this.env == env && St() == State(work, mirror, net, [])
    {
      this.env := env;
      this.net := net;
      this.work := work;
      this.mirror := mirror;
      this.log := [];
    }

    /** `download_sig(opts, ips, sig, version)`. */
    method DownloadSig(ips: seq<string>, sig: string, version: string) returns (r: Result<Fetch, Crash>)
      modifies this
      ensures (St(), r) == FetchFrom(Judger(env, version), old(St()), ips, sig, version, None)
    {
      var judge := Judger(env, version);
      var isDiff := IsDiffRequest(version);
      var name := ArtifactName(sig, isDiff);
      var code: Option<int> := None;
      var i := 0;
      while i < |ips|
        invariant 0 <= i <= |ips|
        invariant FetchFrom(judge, old(St()), ips, sig, version, None) == FetchFrom(judge, St(), ips[i..], sig, version, code)
      {
        ghost var before := St();
        assert ips[i..][0] == ips[i] && ips[i..][1..] == ips[i + 1..];
        var resp := Nth(net, |log|);
        log := log + [Get(ips[i], UrlPath(sig, isDiff))];
        match resp {
          case Served(status, chunks) =>
            code := Some(status);
            var total, body := ChunkRead(chunks);
            work := work[name := body];
            if isDiff {
              return Ok(Fetch(true, code));
            }
            assert name == CvdName(sig);
            if env.verify(work[CvdName(sig)]) {
              var local := LocalVersion(work, sig, env.sigtool);
              if local.Err? {
                return Err(local.error);
              }
              if local.value == Some(version) {
                return Ok(Fetch(true, code));
              }
            }
          case Refused(c) =>
            if c.Some? {
              code := c;
            }
        }
        assert St() == Attempt(before, ips[i], sig, version).0;
        i := i + 1;
      }
      return Ok(Fetch(false, code));
    }

    /** `copy_sig(sig, opts, isdiff)`: move the staged artifact into the mirror directory. */
    method CopySig(sig: string, isDiff: bool) returns (r: Result<(), Crash>)
      modifies this
      ensures (St(), r) == Deploy(old(St()), ArtifactName(sig, isDiff))
    {
      var name := ArtifactName(sig, isDiff);
      if name !in work {
        return Err(FileNotFound(name));
      }
      mirror := mirror[name := work[name]];
      work := work - {name};
      return Ok(());
    }

    /** The `for passno in range(1, 6)` loop shared by `update_sig` and `update_diff`. */
    method Retry(ips: seq<string>, sig: string, version: string, isDiff: bool) returns (r: Result<Passes, Crash>)
      modifies this
      ensures (St(), r) == RetryFrom(Judger(env, version), old(St()), ips, sig, version, isDiff, 1)
    {
      var judge := Judger(env, version);
      var passno := 1;
      while passno <= MaxPasses
        invariant 1 <= passno <= MaxPasses + 1
        invariant RetryFrom(judge, old(St()), ips, sig, version, isDiff, 1) == RetryFrom(judge, St(), ips, sig, version, isDiff, passno)
      {
        var f := DownloadSig(ips, sig, version);
        if f.Err? {
          return Err(f.error);
        }
        if f.value.downloaded {
          var d := CopySig(sig, isDiff);
          if d.Err? {
            return Err(d.error);
          }
          return Ok(Passes(passno, true));
        }
        if f.value.code == Some(404) {
          return Ok(Passes(passno, false));
        }
        passno := passno + 1;
      }
      return Ok(Passes(MaxPasses, false));
    }

    /** `update_diff(opts, addrs, sig)`. */
    method UpdateDiff(ips: seq<string>, sig: string) returns (r: Result<Passes, Crash>)
      modifies this
      ensures (St(), r) == UpdateDiffSpec(env, old(St()), ips, sig)
    {
      r := Retry(ips, sig, "", true);
    }

    /** `update_sig(options, addrs, sign, vers)`. */
    method UpdateSig(ips: seq<string>, fam: Family, vers: Versions) returns (r: Result<Option<Passes>, Crash>)
      modifies this
      ensures (St(), r) == UpdateSigSpec(env, old(St()), ips, fam, vers)
    {
      var local := LocalVersion(mirror, Name(fam), env.sigtool);
      if local.Err? {
        return Err(local.error);
      }
      var needed := NeedsFull(local.value, vers.Get(fam));
      if needed.Err? {
        return Err(needed.error);
      }
      if !needed.value {
        return Ok(None);
      }
      var p := Retry(ips, Name(fam), vers.Get(fam), false);
      if p.Err? {
        return Err(p.error);
      }
      return Ok(Some(p.value));
    }

    /** The diff part of `main`'s loop body: `update_diff` for each missing diff from the
        local version to the remote one. */
    method Backfill(ips: seq<string>, fam: Family, vers: Versions) returns (r: Result<(), Crash>)
      modifies this
      ensures (St(), r) == BackfillSpec(env, old(St()), ips, fam, vers)
    {
      var local := LocalVersion(mirror, Name(fam), env.sigtool);
      if local.Err? {
        return Err(local.error);
      }
      if local.value.None? {
        return Ok(());
      }
      var lo, hi := ParseInt(local.value.value), ParseInt(vers.Get(fam));
      if lo.None? || hi.None? {
        return Err(ValueError);
      }
      r := BackfillRange(ips, Name(fam), lo.value, hi.value);
    }

    /** `for num in range(lo, hi + 1)`: `update_diff` of each diff not in the mirror directory. */
    method BackfillRange(ips: seq<string>, family: string, lo: int, hi: int) returns (r: Result<(), Crash>)
      modifies this
      ensures (St(), r) == BackfillFrom(env, old(St()), ips, family, lo, hi)
    {
      var num := lo;
      while num <= hi
        invariant BackfillFrom(env, old(St()), ips, family, lo, hi) == BackfillFrom(env, St(), ips, family, num, hi)
        decreases hi - num
      {
        var id := DiffId(family, num);
        if CdiffName(id) !in mirror {
          var u := UpdateDiff(ips, id);
          if u.Err? {
            return Err(u.error);
          }
        }
        num := num + 1;
      }
      return Ok(());
    }

    /** `create_dns_file(opts, record)`: the result says whether dns.txt was written. */
    method CreateDnsFile(record: string) returns (written: bool)
      modifies this
      ensures (St(), written) == Publish(env, old(St()), record)
    {
      var localMd5 := if DnsFile in mirror then env.md5(mirror[DnsFile]) else "";
      var remoteMd5 := env.md5(record);
      written := localMd5 != remoteMd5;
      if written {
        mirror := mirror[DnsFile := record];
      }
    }

    /** `main(options)`. */
    method Run() returns (out: RunOutcome)
      modifies this
      ensures (St(), out) == RunSpec(env, old(St()))
    {
      var addrs := GetAddrs(env.addrAnswers);
      if addrs.Exhausted? {
        return Exited(AddrExit);
      }
      var record := GetRecord(env.txtAnswers);
      if record.Exhausted? {
        return Exited(RecordExit);
      }
      var parsed := ParseRecord(record.value);
      if parsed.Err? {
        return Crashed(parsed.error);
      }
      var ips, vers := addrs.value, parsed.value;
      var i := 0;
      while i < |Families|
        invariant 0 <= i <= |Families|
        invariant FamiliesFrom(env, old(St()), ips, Families, vers) == FamiliesFrom(env, St(), ips, Families[i..], vers)
      {
        var fam := Families[i];
        assert Families[i..][0] == fam && Families[i..][1..] == Families[i + 1..];
        if Diffable(fam) {
          var b := Backfill(ips, fam, vers);
          if b.Err? {
            return Crashed(b.error);
          }
        }
        var u := UpdateSig(ips, fam, vers);
        if u.Err? {
          return Crashed(u.error);
        }
        i := i + 1;
      }
      var written := CreateDnsFile(record.value);
      return Exited(0);
    }
  }
}
