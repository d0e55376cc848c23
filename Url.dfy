/** The portfolio-URL check of the job-application form: the one fixed pattern
      ^(https?:\/\/)?([\w-]+\.)+[\w-]+(\/[\w- .\/?%&=]*)?$
    first read as a grammar (`Matches`), then recognised character by
    character (`IsValidUrl`), and the two proved to accept the same strings. */
module Url {

  /** `[\w-]`: a character of a host label (`\w` is `[A-Za-z0-9_]`). */
  predicate IsLabelChar(c: char) {
    ('a' <= c <= 'z') || ('A' <= c <= 'Z') || ('0' <= c <= '9') || c == '_' || c == '-'
  }

  /** `[\w- .\/?%&=]`: a character that may follow the `/` opening the path. */
  predicate IsPathChar(c: char) {
    IsLabelChar(c) || c == ' ' || c == '.' || c == '/' || c == '?' || c == '%' || c == '&' || c == '='
  }

  // The pattern as a grammar.

  /** `(https?:\/\/)?` */
  ghost predicate IsScheme(t: string) {
    t == "" || t == "http://" || t == "https://"
  }

  /** `[\w-]+` */
  ghost predicate IsLabel(t: string) {
    |t| > 0 && forall i :: 0 <= i < |t| ==> IsLabelChar(t[i])
  }

  /** `[\w-]+(\.[\w-]+)*`: one or more labels separated by dots. */
  ghost predicate IsLabels(h: string)
    decreases |h|
  {
    exists k :: 0 < k <= |h| && IsLabel(h[..k]) && (k == |h| || (h[k] == '.' && IsLabels(h[k + 1..])))
  }

  /** `([\w-]+\.)+[\w-]+`: a label and a dot, then one or more dot-separated labels. */
  ghost predicate IsHost(h: string) {
    exists k :: 0 < k < |h| && IsLabel(h[..k]) && h[k] == '.' && IsLabels(h[k + 1..])
  }

  /** `(\/[\w- .\/?%&=]*)?` */
  ghost predicate IsPath(p: string) {
    p == [] || (p[0] == '/' && forall i :: 1 <= i < |p| ==> IsPathChar(p[i]))
  }

  /** The whole string, anchored at both ends, is scheme, host and path. */
  ghost predicate Matches(s: string) {
    exists i, j :: 0 <= i <= j <= |s| && IsScheme(s[..i]) && IsHost(s[i..j]) && IsPath(s[j..])
  }

  // The recogniser.

  /** Length of the longest prefix of `r` made of label characters. */
  function LabelLength(r: string): (n: nat)
    ensures n <= |r|
    ensures forall i :: 0 <= i < n ==> IsLabelChar(r[i])
    ensures n == |r| || !IsLabelChar(r[n])
  {
    if |r| > 0 && IsLabelChar(r[0]) then 1 + LabelLength(r[1..]) else 0
  }

  /** Whether every character of `p` is a path character. */
  function PathCharsOnly(p: string): (ok: bool)
    ensures ok <==> forall i :: 0 <= i < |p| ==> IsPathChar(p[i])
  {
    p == [] || (IsPathChar(p[0]) && PathCharsOnly(p[1..]))
  }

  /** Scans the host from the first character of a label, one whole label at
      a time; `dotted` records whether a dot has already been passed. After
      the last label only the end of input or a path may follow. */
  function HostFrom(r: string, dotted: bool): bool
    decreases |r|
  {
    var n := LabelLength(r);
    if n == 0 then false
    else if n < |r| && r[n] == '.' then HostFrom(r[n + 1..], true)
    else dotted && (n == |r| || (r[n] == '/' && PathCharsOnly(r[n + 1..])))
  }

  /** Length of the scheme prefix; `https?` tries the `s` first. */
  function SchemeLength(s: string): (n: nat)
    ensures n <= |s| && IsScheme(s[..n])
  {
    if |s| >= 8 && s[..8] == "https://" then 8
    else if |s| >= 7 && s[..7] == "http://" then 7
    else 0
  }

  /** `isValidUrl(url)`: does the pattern match the whole string? */
  function IsValidUrl(s: string): bool {
    HostFrom(s[SchemeLength(s)..], false)
  }

  // The recogniser accepts exactly the language of the grammar.

  /** The host part that `HostFrom(_, dotted)` is looking for. */
  ghost predicate HostPart(h: string, dotted: bool) {
    if dotted then IsLabels(h) else IsHost(h)
  }

  /** `r` is a host part followed by a path. */
  ghost predicate HostThenPath(r: string, dotted: bool) {
    exists j :: 0 <= j <= |r| && HostPart(r[..j], dotted) && IsPath(r[j..])
  }

  /** A first label that is followed by a dot, or by a path, is necessarily
      the longest run of label characters: the pattern never backtracks into
      a label. */
  lemma FirstLabelIsLongest(r: string, k: nat, j: nat)
    requires 0 < k <= j <= |r|
    requires IsLabel(r[..k])
    requires (k == j && IsPath(r[j..])) || (k < j && r[k] == '.')
    ensures k == LabelLength(r)
  {
    assert forall i :: 0 <= i < k ==> IsLabelChar(r[i]) by {
      forall i | 0 <= i < k
        ensures IsLabelChar(r[i])
      {
        assert r[..k][i] == r[i];
      }
    }
    if k < |r| {
      assert r[k] == '.' || r[k] == '/' by {
        if k == j {
          assert r[j..][0] == r[k];
        }
      }
    }
  }

  /** One label is a dot-separated list of labels. */
  lemma OneLabel(h: string)
    requires IsLabel(h)
    ensures IsLabels(h)
  {
    assert h[..|h|] == h;
  }

  /** A label, a dot and a list of labels form both a longer list of labels
      and a host. */
  lemma LabelDotLabels(h: string, n: nat)
    requires 0 < n < |h| && IsLabel(h[..n]) && h[n] == '.' && IsLabels(h[n + 1..])
    ensures IsLabels(h) && IsHost(h)
  {
  }

  /** The tail that `HostFrom` checks after the last label is a path. */
  lemma PathAfterLabel(r: string, n: nat)
    requires n <= |r|
    requires n == |r| || (r[n] == '/' && PathCharsOnly(r[n + 1..]))
    ensures IsPath(r[n..])
  {
    if n < |r| {
      assert forall i :: 1 <= i < |r[n..]| ==> r[n..][i] == r[n + 1..][i - 1];
    }
  }

  /** A non-empty path is a slash followed by path characters only. */
  lemma PathBeyondSlash(r: string, n: nat)
    requires n < |r| && IsPath(r[n..])
    ensures r[n] == '/' && PathCharsOnly(r[n + 1..])
  {
    assert r[n..][0] == r[n];
    var t := r[n + 1..];
    forall i | 0 <= i < |t|
      ensures IsPathChar(t[i])
    {
      assert t[i] == r[n..][i + 1];
    }
  }

  /** Whatever `HostFrom` accepts is a host part followed by a path. */
  lemma {:induction false} HostFromSound(r: string, dotted: bool)
    requires HostFrom(r, dotted)
    ensures HostThenPath(r, dotted)
    decreases |r|
  {
    var n := LabelLength(r);
    assert IsLabel(r[..n]);
    if n < |r| && r[n] == '.' {
      var r' := r[n + 1..];
      HostFromSound(r', true);
      var j' :| 0 <= j' <= |r'| && IsLabels(r'[..j']) && IsPath(r'[j'..]);
      LabelDotThenPath(r, n, j', dotted);
    } else {
      OneLabel(r[..n]);
      PathAfterLabel(r, n);
      assert HostPart(r[..n], dotted);
    }
  }

  /** A label, a dot, then labels and a path, make a host part and a path. */
  lemma LabelDotThenPath(r: string, n: nat, j': nat, dotted: bool)
    requires 0 < n < |r| && IsLabel(r[..n]) && r[n] == '.'
    requires j' <= |r| - n - 1 && IsLabels(r[n + 1..][..j']) && IsPath(r[n + 1..][j'..])
    ensures HostThenPath(r, dotted)
  {
    var j := n + 1 + j';
    var h := r[..j];
    assert h[..n] == r[..n];
    assert h[n + 1..] == r[n + 1..][..j'];
    LabelDotLabels(h, n);
    assert r[j..] == r[n + 1..][j'..];
    assert HostPart(h, dotted);
  }

  /** Splits a host part into its first label and what follows it. */
  lemma SplitHostPart(h: string, dotted: bool) returns (k: nat)
    requires HostPart(h, dotted)
    ensures 0 < k <= |h| && IsLabel(h[..k])
    ensures k == |h| ==> dotted
    ensures k < |h| ==> h[k] == '.' && IsLabels(h[k + 1..])
  {
    k :| 0 < k <= |h| && IsLabel(h[..k]) && (k == |h| ==> dotted)
      && (k < |h| ==> h[k] == '.' && IsLabels(h[k + 1..]));
  }

  /** A last label followed by a path completes a dotted host. */
  lemma LastLabelAccepted(r: string, n: nat, dotted: bool)
    requires 0 < n == LabelLength(r) && dotted && IsPath(r[n..])
    ensures HostFrom(r, dotted)
  {
    if n < |r| {
      PathBeyondSlash(r, n);
    }
  }

  /** Every host part followed by a path is accepted by `HostFrom`. */
  lemma {:induction false} HostFromComplete(r: string, dotted: bool, j: nat)
    requires j <= |r| && HostPart(r[..j], dotted) && IsPath(r[j..])
    ensures HostFrom(r, dotted)
    decreases |r|
  {
    var h := r[..j];
    var k := SplitHostPart(h, dotted);
    assert h[..k] == r[..k];
    FirstLabelIsLongest(r, k, j);
    if k < |h| {
      var r' := r[k + 1..];
      assert r'[..j - k - 1] == h[k + 1..];
      assert r'[j - k - 1..] == r[j..];
      HostFromComplete(r', true, j - k - 1);
    } else {
      LastLabelAccepted(r, k, dotted);
    }
  }

  /** `HostFrom` recognises exactly a host part followed by a path. */
  lemma HostFromCorrect(r: string, dotted: bool)
    ensures HostFrom(r, dotted) <==> HostThenPath(r, dotted)
  {
    if HostFrom(r, dotted) {
      HostFromSound(r, dotted);
    }
    if HostThenPath(r, dotted) {
      var j :| 0 <= j <= |r| && HostPart(r[..j], dotted) && IsPath(r[j..]);
      HostFromComplete(r, dotted, j);
    }
  }

  /** A host's first label is followed by a dot. */
  lemma HostHasDotAfterLabel(h: string) returns (k: nat)
    requires IsHost(h)
    ensures 0 < k < |h| && h[k] == '.' && forall i :: 0 <= i < k ==> IsLabelChar(h[i])
  {
    k :| 0 < k < |h| && IsLabel(h[..k]) && h[k] == '.' && IsLabels(h[k + 1..]);
    assert forall i :: 0 <= i < k ==> h[..k][i] == h[i];
  }

  /** A string that opens with `http://` or `https://` has no host at its
      very start: the run of label characters there (`http` or `https`) is
      followed by a colon, not a dot. */
  lemma NoHostBeforeScheme(s: string, j: nat)
    requires j <= |s| && SchemeLength(s) != 0
    ensures !IsHost(s[..j])
  {
    var h := s[..j];
    var c := if SchemeLength(s) == 8 then 5 else 4;
    assert s[..c + 1] == (if c == 5 then "https:" else "http:");
    assert forall q :: 0 <= q <= c ==> s[q] != '.' && (q == c <==> !IsLabelChar(s[q])) by {
      forall q | 0 <= q <= c
        ensures s[q] != '.' && (q == c <==> !IsLabelChar(s[q]))
      {
        assert s[q] == s[..c + 1][q];
      }
    }
    assert c < |s| && !IsLabelChar(s[c]);
    forall k | 0 < k < |h| && IsLabel(h[..k])
      ensures h[k] != '.'
    {
      assert h[k] == s[k];
      forall q | 0 <= q < k
        ensures IsLabelChar(s[q])
      {
        assert h[..k][q] == s[q];
      }
    }
  }

  /** When the string opens with `http://` or `https://`, the pattern must take
      that prefix as its scheme. */
  lemma SchemeIsForced(s: string, i: nat, j: nat)
    requires i <= j <= |s| && IsScheme(s[..i]) && IsHost(s[i..j])
    ensures i == SchemeLength(s)
  {
    if i == 0 {
      assert s[i..j] == s[..j];
      if SchemeLength(s) != 0 {
        NoHostBeforeScheme(s, j);
      }
    } else if i == 7 {
      assert s[4] == ':';
    }
  }

  /** What the recogniser accepts, the pattern matches. */
  lemma ValidUrlMatches(s: string)
    requires IsValidUrl(s)
    ensures Matches(s)
  {
    var m := SchemeLength(s);
    var r := s[m..];
    HostFromSound(r, false);
    var j' :| 0 <= j' <= |r| && HostPart(r[..j'], false) && IsPath(r[j'..]);
    SchemeHostPath(s, m, j');
  }

  /** A scheme, then a host and a path after it, is a match. */
  lemma SchemeHostPath(s: string, m: nat, j': nat)
    requires m + j' <= |s| && IsScheme(s[..m])
    requires IsHost(s[m..][..j']) && IsPath(s[m..][j'..])
    ensures Matches(s)
  {
    assert s[m..m + j'] == s[m..][..j'];
    assert s[m + j'..] == s[m..][j'..];
  }

  /** What the pattern matches, the recogniser accepts. */
  lemma MatchesValidUrl(s: string)
    requires Matches(s)
    ensures IsValidUrl(s)
  {
    var i, j :| 0 <= i <= j <= |s| && IsScheme(s[..i]) && IsHost(s[i..j]) && IsPath(s[j..]);
    SchemeIsForced(s, i, j);
    var r := s[i..];
    assert r[..j - i] == s[i..j];
    assert r[j - i..] == s[j..];
    HostFromComplete(r, false, j - i);
  }

  /** The recogniser accepts exactly the strings the pattern matches. */
  lemma IsValidUrlIffMatches(s: string)
    ensures IsValidUrl(s) <==> Matches(s)
  {
    if IsValidUrl(s) {
      ValidUrlMatches(s);
    }
    if Matches(s) {
      MatchesValidUrl(s);
    }
  }

  /** A valid URL begins with a label character, so a value with leading
      whitespace is never a valid URL. */
  lemma ValidUrlStartsWithLabelChar(s: string)
    requires IsValidUrl(s)
    ensures |s| > 0 && IsLabelChar(s[0])
  {
    if SchemeLength(s) == 0 {
      assert LabelLength(s) > 0;
    } else {
      assert s[0] == 'h';
    }
  }

  /** A valid URL contains a dot (a name such as `localhost` is rejected). */
  lemma ValidUrlHasDot(s: string)
    requires IsValidUrl(s)
    ensures exists i :: 0 <= i < |s| && s[i] == '.'
  {
    IsValidUrlIffMatches(s);
    var i, j :| 0 <= i <= j <= |s| && IsScheme(s[..i]) && IsHost(s[i..j]) && IsPath(s[j..]);
    var k := HostHasDotAfterLabel(s[i..j]);
    assert s[i + k] == s[i..j][k];
  }

  /** A string without a dot is rejected. */
  lemma NoDotRejected(s: string)
    requires forall i :: 0 <= i < |s| ==> s[i] != '.'
    ensures !IsValidUrl(s)
  {
    if IsValidUrl(s) {
      ValidUrlHasDot(s);
    }
  }

  /** A label character in front adds one to the label length. */
  lemma LabelLengthCons(c: char, r: string)
    requires IsLabelChar(c)
    ensures LabelLength([c] + r) == 1 + LabelLength(r)
  {
    assert ([c] + r)[1..] == r;
  }

  /** A run of label characters followed by something that cannot continue
      a label is exactly one label long. */
  lemma {:induction false} LabelThenStop(w: string, t: string)
    requires forall i :: 0 <= i < |w| ==> IsLabelChar(w[i])
    requires LabelLength(t) == 0
    ensures LabelLength(w + t) == |w|
  {
    if w == [] {
      assert w + t == t;
    } else {
      LabelThenStop(w[1..], t);
      assert w + t == [w[0]] + (w[1..] + t);
      LabelLengthCons(w[0], w[1..] + t);
    }
  }

  /** The last label `com` followed by the path `/p`. */
  lemma LastLabelWithPath()
    ensures HostFrom("com/p", true)
  {
    var r := "com/p";
    assert LabelLength(r) == 3;
    assert r[3] == '/';
    assert r[4..] == "p";
    assert PathCharsOnly("p");
  }

  /** A URL with a scheme and a path is accepted. */
  lemma AcceptedWithScheme()
    ensures IsValidUrl("https://example.com/p")
  {
    var s := "https://example.com/p";
    assert s[..8] == "https://";
    var r := "example.com/p";
    assert s[8..] == r;
    assert r == "example" + ".com/p";
    LabelThenStop("example", ".com/p");
    assert r[8..] == "com/p";
    LastLabelWithPath();
  }

  /** A bare host name with a dot is accepted. */
  lemma AcceptedBareHost()
    ensures IsValidUrl("example.com")
  {
    var s := "example.com";
    assert s[..7][0] == 'e';
    assert SchemeLength(s) == 0;
    assert s == "example" + ".com";
    LabelThenStop("example", ".com");
    assert s[8..] == "com";
    assert LabelLength("com") == 3;
  }

  /** A value with spaces in its host is rejected. */
  lemma RejectedWithSpaces()
    ensures !IsValidUrl("not a url")
  {
    assert "not a url"[..7][0] == 'n';
    assert LabelLength("not a url") == 3;
  }

  /** A host name without a dot is rejected. */
  lemma RejectedWithoutDot()
    ensures !IsValidUrl("localhost")
  {
    var s := "localhost";
    assert forall i :: 0 <= i < |s| ==> s[i] != '.';
    NoDotRejected(s);
  }

  /** A value with a leading space is rejected. */
  lemma RejectedLeadingSpace()
    ensures !IsValidUrl(" example.com")
  {
    assert " example.com"[..7][0] == ' ';
    assert LabelLength(" example.com") == 0;
  }
}
