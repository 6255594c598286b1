/** File names and URL paths of the artifacts (clamavmirror.py `download_sig`, `copy_sig`,
    `create_dns_file` and the diff names built in `main`). A directory is modelled as a map
    from file name to content, so `os.path.join(dir, name)` becomes the key `name`. */
module Paths {
  import opened Text

  /** `'%s.cvd' % sig`: a full signature file. */
  function CvdName(sig: string): string { sig + ".cvd" }

  /** `'%s.cdiff' % sig`: an incremental diff. */
  function CdiffName(sig: string): string { sig + ".cdiff" }

  /** The one base name used for an artifact in the work directory, the mirror directory and the URL. */
  function ArtifactName(sig: string, isDiff: bool): string {
    if isDiff then CdiffName(sig) else CvdName(sig)
  }

  /** `/<sig>.cvd` or `/<sig>.cdiff` on the mirror's web server. */
  function UrlPath(sig: string, isDiff: bool): string { "/" + ArtifactName(sig, isDiff) }

  /** The published copy of the TXT record. */
  const DnsFile: string := "dns.txt"

  /** `'%s-%d' % (family, n)`: the name of diff number `n` of a family. */
  function DiffId(family: string, n: int): string { family + "-" + IntToString(n) }

  /** A full file, a diff and dns.txt never share a name, whatever the signatures are called. */
  lemma KindsNeverCollide(a: string, b: string)
    ensures CvdName(a) != CdiffName(b)
    ensures CvdName(a) != DnsFile && CdiffName(b) != DnsFile
  {
    var x, y := CvdName(a), CdiffName(b);
    assert x[|x| - 1] == 'd';
    assert y[|y| - 1] == 'f';
    assert DnsFile[|DnsFile| - 1] == 't';
  }

  /** An artifact name determines the signature it belongs to. */
  lemma ArtifactNameInjective(a: string, b: string, isDiff: bool)
    requires ArtifactName(a, isDiff) == ArtifactName(b, isDiff)
    ensures a == b
  {
    var x := ArtifactName(a, isDiff);
    var k := if isDiff then 6 else 4;
    assert a == x[..|x| - k];
    assert b == x[..|x| - k];
  }

  /** Two diffs of one family with different numbers have different names. */
  lemma DiffIdInjective(family: string, m: int, n: int)
    requires DiffId(family, m) == DiffId(family, n)
    ensures m == n
  {
    var x := DiffId(family, m);
    assert IntToString(m) == x[|family| + 1..];
    assert IntToString(n) == x[|family| + 1..];
    IntToStringInjective(m, n);
  }
}
