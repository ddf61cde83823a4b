/** Names of the Jobs a run creates. The hash and the lower-casing of characters are library
    functions, so they are parameters: `hash` is assumed to give 64 lower-case hex digits. */
module Naming {

  const MAX_LABEL := 63
  const SUFFIX := 12

  predicate IsAlphanumeric(c: char) {
    'a' <= c <= 'z' || '0' <= c <= '9'
  }

  predicate IsLabelChar(c: char) {
    IsAlphanumeric(c) || c == '-'
  }

  predicate AllLabelChars(s: string) {
    forall i | 0 <= i < |s| :: IsLabelChar(s[i])
  }

  /** A DNS label: section 2.1 of RFC 1123, with the length limit of section 2.3.4 of RFC 1035. */
  predicate IsLabel(s: string) {
    && 1 <= |s| <= MAX_LABEL
    && AllLabelChars(s)
    && IsAlphanumeric(s[0]) && IsAlphanumeric(s[|s| - 1])
  }

  /** SHA-256 in hexadecimal. */
  ghost predicate IsHexHash(hash: string -> string) {
    forall s :: |hash(s)| == 64 && forall i | 0 <= i < 64 :: '0' <= hash(s)[i] <= '9' || 'a' <= hash(s)[i] <= 'f'
  }

  function ShortHash(s: string, n: nat): string {
    if |s| <= n then s else s[..n]
  }

  // ---- Sanitizing ---------------------------------------------------------------------------

  function TrimLeft(s: string): string {
    if s != "" && s[0] == '-' then TrimLeft(s[1..]) else s
  }

  function TrimRight(s: string): string {
    if s != "" && s[|s| - 1] == '-' then TrimRight(s[..|s| - 1]) else s
  }

  /** `strings.Trim(s, "-")`. */
  function Trim(s: string): string {
    TrimRight(TrimLeft(s))
  }

  lemma {:induction false} TrimLeftHolds(s: string)
    requires AllLabelChars(s)
    ensures var r := TrimLeft(s);
            AllLabelChars(r) && |r| <= |s| && (r != "" ==> IsAlphanumeric(r[0]))
  {
    if s != "" && s[0] == '-' { TrimLeftHolds(s[1..]); }
  }

  lemma {:induction false} TrimRightHolds(s: string)
    requires AllLabelChars(s)
    ensures var r := TrimRight(s);
            && AllLabelChars(r) && |r| <= |s| && r == s[..|r|]
            && (r != "" ==> IsAlphanumeric(r[|r| - 1]))
            && (r == "" ==> forall i | 0 <= i < |s| :: s[i] == '-')
  {
    if s != "" && s[|s| - 1] == '-' { TrimRightHolds(s[..|s| - 1]); }
  }

  /** Trimming leaves nothing, or something that starts and ends with a letter or digit; a string
      that starts with one keeps it. */
  lemma TrimHolds(s: string)
    requires AllLabelChars(s)
    ensures var r := Trim(s);
            && AllLabelChars(r) && |r| <= |s|
            && (r != "" ==> IsAlphanumeric(r[0]) && IsAlphanumeric(r[|r| - 1]))
            && (s != "" && IsAlphanumeric(s[0]) ==> r != "")
  {
    TrimLeftHolds(s);
    TrimRightHolds(TrimLeft(s));
  }

  function Dashed(c: char): char {
    if IsLabelChar(c) then c else '-'
  }

  function DashedAll(lower: char -> char, s: string): string {
    seq(|s|, i requires 0 <= i < |s| => Dashed(lower(s[i])))
  }

  function Sanitized(lower: char -> char, s: string): string {
    var r := Trim(DashedAll(lower, s));
    if r == "" then "job" else r
  }

  /** `sanitizeDNS1123`: a loop over the lower-cased runes into a builder. */
  method SanitizeDNS1123(lower: char -> char, s: string) returns (out: string)
    ensures out == Sanitized(lower, s)
  {
    var b := "";
    for i := 0 to |s|
      invariant b == DashedAll(lower, s[..i])
    {
      var r := lower(s[i]);
      if 'a' <= r <= 'z' {
        b := b + [r];
      } else if '0' <= r <= '9' {
        b := b + [r];
      } else if r == '-' {
        b := b + [r];
      } else {
        b := b + ['-'];
      }
      assert s[..i + 1] == s[..i] + [s[i]];
    }
    assert s[..|s|] == s;
    out := Trim(b);
    if out == "" { out := "job"; }
  }

  lemma SanitizedHolds(lower: char -> char, s: string)
    ensures var r := Sanitized(lower, s);
            r != "" && AllLabelChars(r) && IsAlphanumeric(r[0]) && IsAlphanumeric(r[|r| - 1])
  {
    TrimHolds(DashedAll(lower, s));
  }

  /** A lower-case letter, a digit or a dash stays, any other character becomes a dash. */
  predicate Becomes(lower: char -> char, c: char, d: char) {
    var l := lower(c);
    d == if 'a' <= l <= 'z' || '0' <= l <= '9' || l == '-' then l else '-'
  }

  lemma {:induction false} TrimLeftAt(s: string) returns (a: nat)
    ensures a <= |s| && TrimLeft(s) == s[a..] && forall i | 0 <= i < a :: s[i] == '-'
    ensures a < |s| ==> s[a] != '-'
  {
    a := 0;
    if s != "" && s[0] == '-' {
      var b := TrimLeftAt(s[1..]);
      a := b + 1;
      assert s[1..][b..] == s[a..];
      assert forall i | 1 <= i < a :: s[i] == s[1..][i - 1];
    }
  }

  lemma {:induction false} TrimRightAt(s: string) returns (b: nat)
    ensures b <= |s| && TrimRight(s) == s[..b] && forall i | b <= i < |s| :: s[i] == '-'
    ensures b > 0 ==> s[b - 1] != '-'
  {
    b := |s|;
    if s != "" && s[|s| - 1] == '-' {
      b := TrimRightAt(s[..|s| - 1]);
      assert s[..|s| - 1][..b] == s[..b];
    }
  }

  /** Sanitizing maps the characters one by one and drops the dashes at both ends; a string of which
      nothing is left becomes "job". */
  lemma SanitizedExact(lower: char -> char, s: string) returns (a: nat, b: nat)
    ensures a <= b <= |s| && forall i | 0 <= i < |s| && !(a <= i < b) :: Becomes(lower, s[i], '-')
    ensures var r := Sanitized(lower, s);
            if a == b then r == "job"
            else && |r| == b - a && r[0] != '-' && r[|r| - 1] != '-'
                 && forall i | a <= i < b :: Becomes(lower, s[i], r[i - a])
  {
    var d := DashedAll(lower, s);
    a := TrimLeftAt(d);
    var c := TrimRightAt(d[a..]);
    b := a + c;
    assert Trim(d) == d[a..][..c];
    forall i | 0 <= i < |s| ensures Becomes(lower, s[i], d[i]) {}
    forall i | b <= i < |s| ensures d[i] == '-' { assert d[a..][i - a] == '-'; }
  }

  /** Lower-casing leaves the characters of labels alone. */
  ghost predicate KeepsLabelChars(lower: char -> char) {
    forall c | IsLabelChar(c) :: lower(c) == c
  }

  /** A string that is already fit for a label is not changed. */
  lemma SanitizedKeepsLabels(lower: char -> char, s: string)
    requires KeepsLabelChars(lower)
    requires s != "" && AllLabelChars(s) && IsAlphanumeric(s[0]) && IsAlphanumeric(s[|s| - 1])
    ensures Sanitized(lower, s) == s
  {
    assert DashedAll(lower, s) == s;
  }

  // ---- Job names ----------------------------------------------------------------------------

  function HashedKey(cjob: string, cert: string, node: string, runID: string): string {
    cjob + "/" + cert + "/" + node + "/" + runID
  }

  /** The name `buildJobName` gives. */
  function JobName(hash: string -> string, lower: char -> char, cjob: string, cert: string, node: string,
                   runID: string): (name: string)
    ensures name != ""
  {
    var suffix := ShortHash(hash(HashedKey(cjob, cert, node, runID)), SUFFIX);
    var full := Sanitized(lower, cjob + "-" + cert + "-" + node + "-" + runID);
    var room := MAX_LABEL - |suffix| - 1;
    var prefixLen := if room < 1 then 1 else room;
    var cut := if |full| > prefixLen then Trim(full[..prefixLen]) else full;
    var base := if cut == "" then "job" else cut;
    base + "-" + suffix
  }

  /** `buildJobName`, truncating and trimming in steps. */
  method BuildJobName(hash: string -> string, lower: char -> char, cjob: string, cert: string, node: string,
                      runID: string)
    returns (name: string)
    ensures name == JobName(hash, lower, cjob, cert, node, runID)
  {
    var suffix := ShortHash(hash(HashedKey(cjob, cert, node, runID)), SUFFIX);
    var base := SanitizeDNS1123(lower, cjob + "-" + cert + "-" + node + "-" + runID);
    var prefixLen := MAX_LABEL - |suffix| - 1;
    if prefixLen < 1 { prefixLen := 1; }
    if |base| > prefixLen { base := Trim(base[..prefixLen]); }
    if base == "" { base := "job"; }
    name := base + "-" + suffix;
  }

  /** Every Job name is a DNS label, whatever the four parts contain. */
  lemma JobNameIsLabel(hash: string -> string, lower: char -> char, cjob: string, cert: string, node: string,
                       runID: string)
    requires IsHexHash(hash)
    ensures IsLabel(JobName(hash, lower, cjob, cert, node, runID))
  {
    var digest := hash(HashedKey(cjob, cert, node, runID));
    var suffix := ShortHash(digest, SUFFIX);
    assert |digest| == 64;
    assert |suffix| == 12 && AllLabelChars(suffix) && IsAlphanumeric(suffix[11]);
    var full := Sanitized(lower, cjob + "-" + cert + "-" + node + "-" + runID);
    SanitizedHolds(lower, cjob + "-" + cert + "-" + node + "-" + runID);
    if |full| > 50 { TrimHolds(full[..50]); }
    var cut := if |full| > 50 then Trim(full[..50]) else full;
    assert cut != "" && |cut| <= 50 && AllLabelChars(cut) && IsAlphanumeric(cut[0]);
    var name := cut + "-" + suffix;
    assert JobName(hash, lower, cjob, cert, node, runID) == name;
    forall i | 0 <= i < |name| ensures IsLabelChar(name[i]) {
      if i > |cut| { assert name[i] == suffix[i - |cut| - 1]; }
    }
    assert name[|name| - 1] == suffix[11];
  }

  /** A name is the sanitized text, cut after fifty characters and rid of the dashes that leaves at
      its end, followed by a dash and the first twelve digits of the hash of its parts. */
  lemma JobNameExact(hash: string -> string, lower: char -> char, cjob: string, cert: string, node: string,
                     runID: string) returns (m: nat)
    requires IsHexHash(hash)
    ensures var full := Sanitized(lower, cjob + "-" + cert + "-" + node + "-" + runID);
            && 0 < m <= |full| && full[m - 1] != '-'
            && (if |full| <= 50 then m == |full| else m <= 50 && forall i | m <= i < 50 :: full[i] == '-')
            && JobName(hash, lower, cjob, cert, node, runID)
               == full[..m] + "-" + hash(cjob + "/" + cert + "/" + node + "/" + runID)[..12]
  {
    var full := Sanitized(lower, cjob + "-" + cert + "-" + node + "-" + runID);
    SanitizedHolds(lower, cjob + "-" + cert + "-" + node + "-" + runID);
    assert |hash(HashedKey(cjob, cert, node, runID))| == 64;
    m := |full|;
    if |full| > 50 {
      var a := TrimLeftAt(full[..50]);
      assert TrimLeft(full[..50]) == full[..50];
      m := TrimRightAt(full[..50]);
      assert full[..50][..m] == full[..m] && full[0] != '-';
    }
    assert full[..|full|] == full;
  }

  /** When the four parts are labels and short enough together, they can be read off the name. */
  lemma JobNameKeepsParts(hash: string -> string, lower: char -> char, cjob: string, cert: string, node: string,
                          runID: string)
    requires IsHexHash(hash) && KeepsLabelChars(lower)
    requires IsLabel(cjob) && IsLabel(cert) && IsLabel(node) && IsLabel(runID)
    requires |cjob| + |cert| + |node| + |runID| + 3 <= MAX_LABEL - SUFFIX - 1
    ensures JobName(hash, lower, cjob, cert, node, runID)
            == cjob + "-" + cert + "-" + node + "-" + runID + "-" + hash(HashedKey(cjob, cert, node, runID))[..SUFFIX]
  {
    var joined := cjob + "-" + cert + "-" + node + "-" + runID;
    assert AllLabelChars(joined) && joined[|joined| - 1] == runID[|runID| - 1];
    SanitizedKeepsLabels(lower, joined);
    assert |hash(HashedKey(cjob, cert, node, runID))| == 64;
  }

  /** The shortened hash tells two keys apart. Stated for two keys: over all strings no hash could. */
  ghost predicate Distinguishes(hash: string -> string, a: string, b: string) {
    ShortHash(hash(a), SUFFIX) == ShortHash(hash(b), SUFFIX) ==> a == b
  }

  lemma EqualNamesEqualKeys(hash: string -> string, lower: char -> char,
                            cjob: string, cert: string, node: string, runID: string,
                            cjob': string, cert': string, node': string, runID': string)
    requires IsHexHash(hash)
    requires Distinguishes(hash, HashedKey(cjob, cert, node, runID), HashedKey(cjob', cert', node', runID'))
    requires JobName(hash, lower, cjob, cert, node, runID) == JobName(hash, lower, cjob', cert', node', runID')
    ensures HashedKey(cjob, cert, node, runID) == HashedKey(cjob', cert', node', runID')
  {
    var a := ShortHash(hash(HashedKey(cjob, cert, node, runID)), SUFFIX);
    var b := ShortHash(hash(HashedKey(cjob', cert', node', runID')), SUFFIX);
    assert |a| == 12 && |b| == 12;
    var name := JobName(hash, lower, cjob, cert, node, runID);
    assert name[|name| - 12..] == a;
    assert name[|name| - 12..] == b;
  }

  /** Equal Job names come from the same CertificateJob, Certificate, node and run, for names
      without a slash (Kubernetes names have none) and a hash that tells the two keys apart. */
  lemma JobNameIdentifies(hash: string -> string, lower: char -> char,
                          cjob: string, cert: string, node: string, runID: string,
                          cjob': string, cert': string, node': string, runID': string)
    requires IsHexHash(hash)
    requires Distinguishes(hash, HashedKey(cjob, cert, node, runID), HashedKey(cjob', cert', node', runID'))
    requires '/' !in cjob && '/' !in cert && '/' !in node
    requires '/' !in cjob' && '/' !in cert' && '/' !in node'
    requires JobName(hash, lower, cjob, cert, node, runID) == JobName(hash, lower, cjob', cert', node', runID')
    ensures cjob == cjob' && cert == cert' && node == node' && runID == runID'
  {
    EqualNamesEqualKeys(hash, lower, cjob, cert, node, runID, cjob', cert', node', runID');
    KeyShape(cjob, cert, node, runID);
    KeyShape(cjob', cert', node', runID');
    FirstSlash(cjob, cert + "/" + (node + "/" + runID), cjob', cert' + "/" + (node' + "/" + runID'));
    FirstSlash(cert, node + "/" + runID, cert', node' + "/" + runID');
    FirstSlash(node, runID, node', runID');
  }

  lemma KeyShape(cjob: string, cert: string, node: string, runID: string)
    ensures HashedKey(cjob, cert, node, runID) == cjob + "/" + (cert + "/" + (node + "/" + runID))
  {
    assert cert + "/" + node + "/" + runID == cert + "/" + (node + "/" + runID);
  }

  lemma {:induction false} FirstSlash(a: string, b: string, c: string, d: string)
    requires '/' !in a && '/' !in c && a + "/" + b == c + "/" + d
    ensures a == c && b == d
  {
    var s := a + "/" + b;
    assert s[|a|] == '/' && s[|c|] == '/';
    assert a == s[..|a|] && c == s[..|c|];
    assert b == s[|a| + 1..] && d == s[|c| + 1..];
  }

  /** Inside one run the CertificateJob, the Certificate and the run are fixed, and then equal
      names come from the same node with no condition on the characters. */
  lemma NodeNamesDistinct(hash: string -> string, lower: char -> char, cjob: string, cert: string, runID: string,
                          node: string, node': string)
    requires IsHexHash(hash)
    requires Distinguishes(hash, HashedKey(cjob, cert, node, runID), HashedKey(cjob, cert, node', runID))
    requires JobName(hash, lower, cjob, cert, node, runID) == JobName(hash, lower, cjob, cert, node', runID)
    ensures node == node'
  {
    EqualNamesEqualKeys(hash, lower, cjob, cert, node, runID, cjob, cert, node', runID);
    var k, k' := HashedKey(cjob, cert, node, runID), HashedKey(cjob, cert, node', runID);
    var start := |cjob| + 1 + |cert| + 1;
    assert |k| == start + |node| + 1 + |runID| && |k'| == start + |node'| + 1 + |runID|;
    assert k[start..start + |node|] == node && k'[start..start + |node'|] == node';
  }
}
