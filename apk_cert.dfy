/** Extraction of the signing certificate's SHA-256 digest from the text that
    `apksigner verify --print-certs <apk>` writes to standard output. Running
    the tool is not modelled: its output is the input here. */
module ApkCert {
  import opened Wrappers
  import opened Strings

  /** The looser marker the output is first tested for. */
  const DigestMarker := "SHA-256 digest: "

  /** The marker the output is split on (as in "Signer #1 certificate SHA-256 digest: "). */
  const CertDigestMarker := "1 certificate SHA-256 digest: "

  const Newline := "\n"

  /** `get_sha256_cert_fingerprint`, after the subprocess call: if the output
      mentions a SHA-256 digest, split it on the certificate marker and keep
      the first line of the second piece. */
  function GetSha256CertFingerprint(output: string): (r: Option<string>)
    ensures !Contains(output, DigestMarker) ==> r.None?
    ensures r.Some? <==> Contains(output, CertDigestMarker)
    ensures r.Some? ==> '\n' !in r.value
  {
    if Contains(output, DigestMarker) then
      var components := Split(output, CertDigestMarker);
      if |components| > 1 then
        var digest := Split(components[1], Newline)[0];
        SplitHeadFree(components[1], Newline);
        ContainsChar(digest, '\n');
        Some(digest)
      else None
    else
      assert !Contains(output, CertDigestMarker) by {
        if i :| OccursAt(output, CertDigestMarker, i) {
          assert OccursAt(CertDigestMarker, DigestMarker, 14);
          OccursTransitive(output, CertDigestMarker, i, DigestMarker, 14);
        }
      }
      None
  }

  /** The digest in closed form: the text after the first certificate
      marker, cut at the next marker, then at the first newline. */
  lemma FingerprintUpTo(output: string)
    requires Contains(output, CertDigestMarker)
    ensures Find(output, CertDigestMarker).value + |CertDigestMarker| <= |output|
    ensures GetSha256CertFingerprint(output)
            == Some(UpTo(UpTo(output[Find(output, CertDigestMarker).value + |CertDigestMarker|..],
                              CertDigestMarker), Newline))
  {
    SplitSecondUpTo(output, CertDigestMarker);
    SplitHeadUpTo(Split(output, CertDigestMarker)[1], Newline);
  }

  /** For any marker and separator: cutting `rest` at the marker, then at the
      separator, leaves a prefix of `rest` that ends at the end of `rest`, at
      a separator or at a marker. */
  lemma NestedUpTo(rest: string, marker: string, sep: string)
    ensures var d := UpTo(UpTo(rest, marker), sep);
            && |d| <= |rest| && rest[..|d|] == d
            && (|d| == |rest| || OccursAt(rest, sep, |d|) || OccursAt(rest, marker, |d|))
  {
    var u := UpTo(rest, marker);
    var d := UpTo(u, sep);
    assert u[..|d|] == rest[..|d|];
    if |d| < |u| {
      OccursInPrefix(rest, |u|, sep, |d|);
    }
  }

  /** Moves a stretch found in `output[start..]` back into `output`. */
  lemma ShiftStretch(output: string, start: nat, d: string, marker: string, sep: string)
    requires start <= |output|
    requires |d| <= |output[start..]| && output[start..][..|d|] == d
    requires |d| == |output[start..]| || OccursAt(output[start..], sep, |d|)
             || OccursAt(output[start..], marker, |d|)
    ensures start + |d| <= |output| && output[start..start + |d|] == d
    ensures |output| == start + |d| || OccursAt(output, sep, start + |d|)
            || OccursAt(output, marker, start + |d|)
  {
    assert output[start..start + |d|] == output[start..][..|d|];
    if OccursAt(output[start..], sep, |d|) {
      OccursInSuffix(output, start, sep, |d|);
    } else if OccursAt(output[start..], marker, |d|) {
      OccursInSuffix(output, start, marker, |d|);
    }
  }

  /** Where the digest comes from: it starts right after the first occurrence
      of the certificate marker and ends at a newline, at another occurrence
      of the marker, or at the end of the output. That it ends at the
      earliest of these is what `FingerprintUpTo` states. */
  lemma DigestFollowsMarker(output: string)
    requires Contains(output, CertDigestMarker)
    ensures var i := Find(output, CertDigestMarker).value;
            var start := i + |CertDigestMarker|;
            var d := GetSha256CertFingerprint(output).value;
            && OccursAt(output, CertDigestMarker, i)
            && (forall j :: 0 <= j < i ==> !OccursAt(output, CertDigestMarker, j))
            && start + |d| <= |output|
            && output[start..start + |d|] == d
            && (|output| == start + |d|
                || output[start + |d|] == '\n'
                || OccursAt(output, CertDigestMarker, start + |d|))
  {
    var start := Find(output, CertDigestMarker).value + |CertDigestMarker|;
    FingerprintUpTo(output);
    var rest := output[start..];
    var d := UpTo(UpTo(rest, CertDigestMarker), Newline);
    NestedUpTo(rest, CertDigestMarker, Newline);
    ShiftStretch(output, start, d, CertDigestMarker, Newline);
    assert Newline == ['\n'];
    OccursChar(output, '\n', start + |d|);
  }

  /** No marker starts within the digest or at the separator after it: one
      inside would be contained in the digest, and one that reaches the
      separator would contain it. */
  lemma NoMarkerBefore(rest: string, marker: string, c: char, digest: string, tail: string, p: int)
    requires |marker| > 0 && rest == digest + [c] + tail
    requires !Contains(digest, marker) && c !in marker
    ensures 0 <= p <= |digest| ==> !OccursAt(rest, marker, p)
  {
    if 0 <= p <= |digest| {
      assert rest[..|digest|] == digest;
      if p + |marker| <= |digest| {
        OccursWithin(rest, 0, digest, marker, p);
      } else {
        OccursCovers(rest, marker, p, |digest|);
      }
    }
  }

  /** For any marker and one-character separator: when `rest` is `digest`,
      the separator and more, and the digest holds neither the separator nor
      a marker, and the marker does not hold the separator, cutting at the
      marker and then at the separator gives exactly `digest`. */
  lemma NestedUpToExact(rest: string, marker: string, c: char, digest: string, tail: string)
    requires |marker| > 0 && rest == digest + [c] + tail
    requires c !in digest && !Contains(digest, marker) && c !in marker
    ensures UpTo(UpTo(rest, marker), [c]) == digest
  {
    var u := UpTo(rest, marker);
    NoMarkerBefore(rest, marker, c, digest, tail, |u|);
    assert |u| > |digest|;
    assert u[|digest|] == rest[|digest|] == c;
    OccursChar(u, c, |digest|);
    var d := UpTo(u, [c]);
    assert |d| <= |digest|;
    OccursChar(u, c, |d|);
    assert forall j :: 0 <= j < |digest| ==> u[j] == digest[j];
    assert |d| == |digest|;
    assert d == u[..|digest|] == digest;
  }

  /** The usual case: the first certificate marker is followed by the digest
      and a newline, and the digest holds no newline and no marker, so the
      digest is returned exactly. */
  lemma DigestLine(prefix: string, digest: string, tail: string)
    requires Find(prefix + CertDigestMarker + digest + Newline + tail, CertDigestMarker) == Some(|prefix|)
    requires '\n' !in digest && !Contains(digest, CertDigestMarker)
    ensures GetSha256CertFingerprint(prefix + CertDigestMarker + digest + Newline + tail) == Some(digest)
  {
    assert '\n' !in CertDigestMarker;
    var output := prefix + CertDigestMarker + digest + Newline + tail;
    FingerprintUpTo(output);
    var rest := output[|prefix| + |CertDigestMarker|..];
    assert rest == digest + ['\n'] + tail;
    NestedUpToExact(rest, CertDigestMarker, '\n', digest, tail);
  }
}
