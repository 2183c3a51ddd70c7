/** Pull-request number extraction from a commit message
    (`extractPrNumber` in internal/github/fetcher.go).

    The message is scanned for the literal prefixes "#", "PR #" and "pull/",
    in that order. For the first occurrence of a prefix, the text after it is
    scanned character by character: digits are collected, non-digits before
    the first digit are skipped, and the first non-digit after a digit ends
    the scan. The first prefix whose scan collected a digit decides the
    number. Characters stand for bytes: the source slices by byte and then
    walks runes, which only differs on non-ASCII text, where neither way
    finds an ASCII digit. */
module PrNumber {
  import opened Wrappers
  import opened Decimal

  const Prefixes: seq<string> := ["#", "PR #", "pull/"]

  // ---------------------------------------------------------- specification

  predicate OccursAt(s: string, p: string, i: int) {
    0 <= i && i + |p| <= |s| && s[i..i + |p|] == p
  }

  ghost predicate FirstOccurrence(s: string, p: string, i: int) {
    OccursAt(s, p, i) && forall j :: 0 <= j < i ==> !OccursAt(s, p, j)
  }

  ghost predicate HasDigit(s: string) {
    exists k :: 0 <= k < |s| && IsDigit(s[k])
  }

  /** s[a..b] is the first maximal run of digits in s. */
  ghost predicate FirstRun(s: string, a: int, b: int) {
    && 0 <= a < b <= |s|
    && (forall k :: 0 <= k < a ==> !IsDigit(s[k]))
    && (forall k :: a <= k < b ==> IsDigit(s[k]))
    && (b == |s| || !IsDigit(s[b]))
  }

  /** n is the value of the first digit run in s. */
  ghost predicate RunValue(s: string, n: nat) {
    exists a, b :: FirstRun(s, a, b) && AllDigits(s[a..b]) && n == DigitsValue(s[a..b])
  }

  /** Prefix p occurs in msg and some digit follows its first occurrence. */
  ghost predicate FollowedByDigit(msg: string, p: string) {
    exists i :: FirstOccurrence(msg, p, i) && HasDigit(msg[i + |p|..])
  }

  /** n is the first digit run after the first occurrence of p. */
  ghost predicate ValueAfter(msg: string, p: string, n: nat) {
    exists i :: FirstOccurrence(msg, p, i) && RunValue(msg[i + |p|..], n)
  }

  /** ps[k] is the earliest prefix, in list order, followed by a digit. */
  ghost predicate Decides(msg: string, ps: seq<string>, k: int) {
    && 0 <= k < |ps|
    && FollowedByDigit(msg, ps[k])
    && forall j :: 0 <= j < k ==> !FollowedByDigit(msg, ps[j])
  }

  // --------------------------------------------------------- implementation

  function IndexFrom(s: string, p: string, k: nat): (r: Option<nat>)
    decreases |s| - k
    ensures r.Some? ==> k <= r.value && OccursAt(s, p, r.value)
                        && forall j :: k <= j < r.value ==> !OccursAt(s, p, j)
    ensures r.None? ==> forall j :: k <= j ==> !OccursAt(s, p, j)
  {
    if k + |p| > |s| then None
    else if s[k..k + |p|] == p then Some(k)
    else IndexFrom(s, p, k + 1)
  }

  /** `strings.Index`: the position of the first occurrence of p, if any. */
  function IndexOf(s: string, p: string): (r: Option<nat>)
    ensures r.Some? <==> exists i :: OccursAt(s, p, i)
    ensures r.Some? ==> FirstOccurrence(s, p, r.value)
  {
    IndexFrom(s, p, 0)
  }

  /** The source's digit-collecting loop over `rest`, with `numStr` the digits
      collected so far. */
  function ScanDigits(rest: string, numStr: string): (r: string)
    requires AllDigits(numStr)
    ensures AllDigits(r)
    decreases |rest|
  {
    if rest == [] then numStr
    else if IsDigit(rest[0]) then ScanDigits(rest[1..], numStr + [rest[0]])
    else if |numStr| > 0 then numStr
    else ScanDigits(rest[1..], numStr)
  }

  /** The number the loop collects after a prefix, if it collects any digit. */
  function FirstDigitRun(rest: string): Option<nat> {
    var numStr := ScanDigits(rest, "");
    if |numStr| > 0 then Some(DigitsValue(numStr)) else None
  }

  function ExtractFrom(msg: string, ps: seq<string>): Option<nat> {
    if ps == [] then None
    else
      match IndexOf(msg, ps[0])
      case Some(idx) =>
        var n := FirstDigitRun(msg[idx + |ps[0]|..]);
        if n.Some? then n else ExtractFrom(msg, ps[1..])
      case None => ExtractFrom(msg, ps[1..])
  }

  function ExtractPrNumber(msg: string): Option<nat> {
    ExtractFrom(msg, Prefixes)
  }

  // ----------------------------------------------------------------- proofs

  /** Once a digit has been collected, the loop takes the maximal digit
      prefix of the rest and stops. */
  lemma {:induction false} ScanContinues(rest: string, acc: string) returns (b: nat)
    requires acc != [] && AllDigits(acc)
    ensures b <= |rest|
    ensures forall k :: 0 <= k < b ==> IsDigit(rest[k])
    ensures b == |rest| || !IsDigit(rest[b])
    ensures ScanDigits(rest, acc) == acc + rest[..b]
    decreases |rest|
  {
    if rest == [] {
      b := 0;
    } else if IsDigit(rest[0]) {
      var acc' := acc + [rest[0]];
      var b' := ScanContinues(rest[1..], acc');
      b := b' + 1;
      assert acc' + rest[1..][..b'] == acc + rest[..b];
    } else {
      b := 0;
    }
  }

  /** Starting on a digit, the loop returns the digit run it starts. */
  lemma ScanFromDigit(rest: string) returns (b: nat)
    requires rest != [] && IsDigit(rest[0])
    ensures FirstRun(rest, 0, b) && ScanDigits(rest, "") == rest[..b]
  {
    var b' := ScanContinues(rest[1..], [rest[0]]);
    assert "" + [rest[0]] == [rest[0]];
    b := b' + 1;
    assert [rest[0]] + rest[1..][..b'] == rest[..b];
    forall k | 0 <= k < b ensures IsDigit(rest[k]) {
      if k > 0 {
        assert rest[k] == rest[1..][k - 1];
      }
    }
    if b < |rest| {
      assert rest[b] == rest[1..][b'];
    }
  }

  /** A leading non-digit shifts the first digit run by one. */
  lemma FirstRunShift(rest: string, a: nat, b: nat)
    requires rest != [] && !IsDigit(rest[0]) && FirstRun(rest[1..], a, b)
    ensures FirstRun(rest, a + 1, b + 1) && rest[1..][a..b] == rest[a + 1..b + 1]
  {
    forall k | 0 <= k < a + 1 ensures !IsDigit(rest[k]) {
      if k > 0 {
        assert rest[k] == rest[1..][k - 1];
      }
    }
    forall k | a + 1 <= k < b + 1 ensures IsDigit(rest[k]) {
      assert rest[k] == rest[1..][k - 1];
    }
    if b + 1 < |rest| {
      assert rest[b + 1] == rest[1..][b];
    }
    assert rest[1..][a..b] == rest[a + 1..b + 1];
  }

  /** A digit in `rest` after a leading non-digit is a digit in `rest[1..]`. */
  lemma HasDigitTail(rest: string)
    requires rest != [] && !IsDigit(rest[0])
    ensures HasDigit(rest) <==> HasDigit(rest[1..])
  {
    if HasDigit(rest) {
      var k :| 0 <= k < |rest| && IsDigit(rest[k]);
      assert rest[1..][k - 1] == rest[k];
    }
    if HasDigit(rest[1..]) {
      var k :| 0 <= k < |rest[1..]| && IsDigit(rest[1..][k]);
      assert rest[k + 1] == rest[1..][k];
    }
  }

  /** From an empty buffer, the loop returns the first maximal digit run,
      or nothing when there is no digit. */
  lemma {:induction false} ScanFresh(rest: string) returns (a: nat, b: nat)
    ensures !HasDigit(rest) ==> ScanDigits(rest, "") == ""
    ensures HasDigit(rest) ==> FirstRun(rest, a, b) && ScanDigits(rest, "") == rest[a..b]
    decreases |rest|
  {
    if rest == [] {
      a, b := 0, 0;
    } else if IsDigit(rest[0]) {
      a := 0;
      b := ScanFromDigit(rest);
    } else {
      var a', b' := ScanFresh(rest[1..]);
      assert ScanDigits(rest, "") == ScanDigits(rest[1..], "");
      HasDigitTail(rest);
      a, b := a' + 1, b' + 1;
      if HasDigit(rest) {
        FirstRunShift(rest, a', b');
      }
    }
  }

  /** The scanner after a prefix finds a number iff a digit follows, and
      then it is the value of the first maximal digit run. */
  lemma FirstDigitRunSpec(rest: string)
    ensures FirstDigitRun(rest).None? <==> !HasDigit(rest)
    ensures FirstDigitRun(rest).Some? ==> RunValue(rest, FirstDigitRun(rest).value)
  {
    var a, b := ScanFresh(rest);
    if HasDigit(rest) {
      assert rest[a] in ScanDigits(rest, "");
    }
  }

  lemma FirstOccurrenceUnique(s: string, p: string, i: int, j: int)
    requires FirstOccurrence(s, p, i) && FirstOccurrence(s, p, j)
    ensures i == j
  {
  }

  /** "Followed by a digit" in terms of what IndexOf returns. */
  lemma FollowedByDigitIff(msg: string, p: string)
    ensures FollowedByDigit(msg, p) <==>
      IndexOf(msg, p).Some? && HasDigit(msg[IndexOf(msg, p).value + |p|..])
  {
    var r := IndexOf(msg, p);
    if FollowedByDigit(msg, p) {
      var i :| FirstOccurrence(msg, p, i) && HasDigit(msg[i + |p|..]);
      FirstOccurrenceUnique(msg, p, i, r.value);
    }
  }

  /** The value after a prefix is read right after its first occurrence. */
  lemma ValueAfterIff(msg: string, p: string, n: nat)
    requires IndexOf(msg, p).Some?
    ensures ValueAfter(msg, p, n) <==> RunValue(msg[IndexOf(msg, p).value + |p|..], n)
  {
    var r := IndexOf(msg, p);
    if ValueAfter(msg, p, n) {
      var i :| FirstOccurrence(msg, p, i) && RunValue(msg[i + |p|..], n);
      FirstOccurrenceUnique(msg, p, i, r.value);
    }
  }

  /** The first prefix of the list decides when a digit follows it. */
  lemma ExtractHeadDecides(msg: string, ps: seq<string>)
    requires ps != [] && FollowedByDigit(msg, ps[0])
    ensures ExtractFrom(msg, ps).Some? && ValueAfter(msg, ps[0], ExtractFrom(msg, ps).value)
  {
    var p := ps[0];
    FollowedByDigitIff(msg, p);
    var idx := IndexOf(msg, p).value;
    var rest := msg[idx + |p|..];
    FirstDigitRunSpec(rest);
    var n := FirstDigitRun(rest);
    assert ExtractFrom(msg, ps) == n;
    ValueAfterIff(msg, p, n.value);
  }

  /** A first prefix that no digit follows is passed over. */
  lemma ExtractHeadPasses(msg: string, ps: seq<string>)
    requires ps != [] && !FollowedByDigit(msg, ps[0])
    ensures ExtractFrom(msg, ps) == ExtractFrom(msg, ps[1..])
  {
    var p := ps[0];
    FollowedByDigitIff(msg, p);
    var r := IndexOf(msg, p);
    if r.Some? {
      FirstDigitRunSpec(msg[r.value + |p|..]);
    }
  }

  /** The first prefix of the list decides when a digit follows it, and is
      passed over otherwise. */
  lemma ExtractHead(msg: string, ps: seq<string>)
    requires ps != []
    ensures FollowedByDigit(msg, ps[0]) ==>
      ExtractFrom(msg, ps).Some? && ValueAfter(msg, ps[0], ExtractFrom(msg, ps).value)
    ensures !FollowedByDigit(msg, ps[0]) ==> ExtractFrom(msg, ps) == ExtractFrom(msg, ps[1..])
  {
    if FollowedByDigit(msg, ps[0]) {
      ExtractHeadDecides(msg, ps);
    } else {
      ExtractHeadPasses(msg, ps);
    }
  }

  /** Passing over a first prefix that no digit follows shifts positions by one. */
  lemma DecidesShift(msg: string, ps: seq<string>, k: nat)
    requires ps != [] && !FollowedByDigit(msg, ps[0])
    ensures Decides(msg, ps[1..], k) ==> Decides(msg, ps, k + 1)
    ensures (forall j :: 0 <= j < |ps[1..]| ==> !FollowedByDigit(msg, ps[1..][j])) <==>
            (forall j :: 0 <= j < |ps| ==> !FollowedByDigit(msg, ps[j]))
  {
    assert forall j :: 1 <= j < |ps| ==> ps[j] == ps[1..][j - 1];
  }

  lemma {:induction false} ExtractFromNone(msg: string, ps: seq<string>)
    ensures ExtractFrom(msg, ps).None? <==> forall j :: 0 <= j < |ps| ==> !FollowedByDigit(msg, ps[j])
    decreases |ps|
  {
    if ps != [] {
      ExtractHead(msg, ps);
      ExtractFromNone(msg, ps[1..]);
      if !FollowedByDigit(msg, ps[0]) {
        DecidesShift(msg, ps, 0);
      }
    }
  }

  lemma {:induction false} ExtractFromSome(msg: string, ps: seq<string>) returns (k: nat)
    requires ExtractFrom(msg, ps).Some?
    ensures Decides(msg, ps, k) && ValueAfter(msg, ps[k], ExtractFrom(msg, ps).value)
    decreases |ps|
  {
    ExtractHead(msg, ps);
    if FollowedByDigit(msg, ps[0]) {
      k := 0;
    } else {
      var k' := ExtractFromSome(msg, ps[1..]);
      DecidesShift(msg, ps, k');
      k := k' + 1;
      assert ps[k] == ps[1..][k'];
    }
  }

  lemma ExtractFromSpec(msg: string, ps: seq<string>) returns (k: nat)
    ensures ExtractFrom(msg, ps).None? <==> forall j :: 0 <= j < |ps| ==> !FollowedByDigit(msg, ps[j])
    ensures ExtractFrom(msg, ps).Some? ==>
      Decides(msg, ps, k) && ValueAfter(msg, ps[k], ExtractFrom(msg, ps).value)
  {
    ExtractFromNone(msg, ps);
    k := 0;
    if ExtractFrom(msg, ps).Some? {
      k := ExtractFromSome(msg, ps);
    }
  }

  /** extractPrNumber returns no number iff no prefix that occurs in the
      message is followed, anywhere after its first occurrence, by a digit;
      otherwise the number is the first maximal digit run after the first
      occurrence of the earliest prefix (in list order) followed by a digit. */
  lemma ExtractPrNumberSpec(msg: string)
    ensures ExtractPrNumber(msg).None? <==>
      forall k :: 0 <= k < |Prefixes| ==> !FollowedByDigit(msg, Prefixes[k])
    ensures ExtractPrNumber(msg).Some? ==>
      exists k :: Decides(msg, Prefixes, k) && ValueAfter(msg, Prefixes[k], ExtractPrNumber(msg).value)
  {
    var k := ExtractFromSpec(msg, Prefixes);
  }

  /** Wherever "PR #" is followed by a digit, so is "#": its first
      occurrence is at or before the '#' inside "PR #". */
  lemma HashCoversPrHash(msg: string)
    ensures FollowedByDigit(msg, "PR #") ==> FollowedByDigit(msg, "#")
  {
    if FollowedByDigit(msg, "PR #") {
      var i :| FirstOccurrence(msg, "PR #", i) && HasDigit(msg[i + 4..]);
      var d :| 0 <= d < |msg[i + 4..]| && IsDigit(msg[i + 4..][d]);
      assert msg[i + 3] == "PR #"[3] == '#';
      assert OccursAt(msg, "#", i + 3);
      var h := IndexOf(msg, "#");
      assert h.Some? && h.value <= i + 3;
      assert msg[h.value + 1..][i + 3 + d - h.value] == msg[i + 4..][d];
      assert HasDigit(msg[h.value + 1..]);
    }
  }

  /** "PR #" never decides the result, which is therefore the same with
      "PR #" removed from the prefix list. */
  lemma PrPrefixNeverDecides(msg: string)
    ensures !Decides(msg, Prefixes, 1)
    ensures ExtractPrNumber(msg) == ExtractFrom(msg, ["#", "pull/"])
  {
    HashCoversPrHash(msg);
    var tail := ["PR #", "pull/"];
    var short := ["#", "pull/"];
    assert Prefixes[0] == "#" && Prefixes[1..] == tail;
    assert tail[0] == "PR #" && tail[1..] == ["pull/"];
    assert short[0] == "#" && short[1..] == ["pull/"];
    var h := IndexOf(msg, "#");
    if h.Some? && FirstDigitRun(msg[h.value + 1..]).Some? {
      assert ExtractFrom(msg, Prefixes) == FirstDigitRun(msg[h.value + 1..]);
      assert ExtractFrom(msg, short) == FirstDigitRun(msg[h.value + 1..]);
    } else {
      NotFollowed(msg, "#");
      NotFollowed(msg, "PR #");
      assert ExtractFrom(msg, Prefixes) == ExtractFrom(msg, tail);
      assert ExtractFrom(msg, short) == ExtractFrom(msg, ["pull/"]);
      assert ExtractFrom(msg, tail) == ExtractFrom(msg, ["pull/"]);
    }
  }

  /** A prefix not followed by a digit gives the scanner nothing. */
  lemma NotFollowed(msg: string, p: string)
    ensures !FollowedByDigit(msg, p) <==>
      IndexOf(msg, p).None? || FirstDigitRun(msg[IndexOf(msg, p).value + |p|..]).None?
  {
    FollowedByDigitIff(msg, p);
    if IndexOf(msg, p).Some? {
      FirstDigitRunSpec(msg[IndexOf(msg, p).value + |p|..]);
    }
  }

  /** Non-digits in front of the number are skipped. */
  lemma {:induction false} ScanSkips(junk: string, rest: string)
    requires forall k :: 0 <= k < |junk| ==> !IsDigit(junk[k])
    ensures ScanDigits(junk + rest, "") == ScanDigits(rest, "")
    decreases |junk|
  {
    if junk != [] {
      var s := junk + rest;
      assert s[0] == junk[0];
      assert !IsDigit(s[0]);
      assert s != [];
      assert ScanDigits(s, "") == ScanDigits(s[1..], "");
      assert (junk + rest)[1..] == junk[1..] + rest;
      ScanSkips(junk[1..], rest);
    } else {
      assert junk + rest == rest;
    }
  }

  /** A digit string followed by a non-digit (or nothing) is read whole. */
  lemma ScanNumber(d: string, post: string)
    requires d != [] && AllDigits(d)
    requires post == [] || !IsDigit(post[0])
    ensures ScanDigits(d + post, "") == d
  {
    var s := d + post;
    assert "" + [s[0]] == [s[0]];
    assert ScanDigits(s, "") == ScanDigits(s[1..], [s[0]]);
    var b := ScanContinues(s[1..], [s[0]]);
    assert s[1..] == d[1..] + post;
    assert |post| > 0 ==> s[1..][|d| - 1] == post[0];
    if b < |d| - 1 {
      assert false;
    }
    if b > |d| - 1 {
      assert false;
    }
    assert [s[0]] + s[1..][..b] == d;
  }

  /** The first occurrence of a one-character prefix is the first position
      holding that character. */
  lemma FirstCharAt(m: string, c: char, i: nat)
    requires i < |m| && m[i] == c
    requires forall j :: 0 <= j < i ==> m[j] != c
    ensures IndexOf(m, [c]) == Some(i)
  {
    assert OccursAt(m, [c], i);
    forall j | 0 <= j < i ensures !OccursAt(m, [c], j) {
      assert m[j..j + 1][0] == m[j];
    }
    FirstOccurrenceUnique(m, [c], i, IndexOf(m, [c]).value);
  }

  /** "... #<n>..." where no '#' comes earlier yields n: the common
      "fix bug (#42)" shape, and "Merge PR #7" through its '#'. */
  lemma HashReference(pre: string, n: nat, post: string)
    requires forall k :: 0 <= k < |pre| ==> pre[k] != '#'
    requires post == [] || !IsDigit(post[0])
    ensures ExtractPrNumber(pre + "#" + NatToDecimal(n) + post) == Some(n)
  {
    var d := NatToDecimal(n);
    var msg := pre + "#" + d + post;
    FirstCharAt(msg, '#', |pre|);
    assert Prefixes[0] == ['#'];
    assert msg[|pre| + 1..] == d + post;
    ScanNumber(d, post);
  }

  /** Without '#' in the message, neither "#" nor "PR #" occurs. */
  lemma NoHashPrefixes(msg: string)
    requires forall k :: 0 <= k < |msg| ==> msg[k] != '#'
    ensures IndexOf(msg, "#") == None && IndexOf(msg, "PR #") == None
  {
    forall j | 0 <= j ensures !OccursAt(msg, "#", j) && !OccursAt(msg, "PR #", j) {
      if j + 1 <= |msg| {
        assert msg[j..j + 1][0] == msg[j];
      }
      if j + 4 <= |msg| {
        assert msg[j..j + 4][3] == msg[j + 3];
      }
    }
  }

  lemma PullMessageHasNoHash(pre: string, d: string, post: string)
    requires forall k :: 0 <= k < |pre| ==> pre[k] != '#'
    requires forall k :: 0 <= k < |post| ==> post[k] != '#'
    requires AllDigits(d)
    ensures forall k :: 0 <= k < |pre + "pull/" + d + post| ==> (pre + "pull/" + d + post)[k] != '#'
  {
    var msg := pre + "pull/" + d + post;
    forall k | 0 <= k < |msg| ensures msg[k] != '#' {
      if k < |pre| { assert msg[k] == pre[k]; }
      else if k < |pre| + 5 { assert msg[k] == "pull/"[k - |pre|]; }
      else if k < |pre| + 5 + |d| { assert msg[k] == d[k - |pre| - 5]; }
      else { assert msg[k] == post[k - |pre| - 5 - |d|]; }
    }
  }

  /** The first "pull/" occurs no later than the one written after `pre`. */
  lemma PullAt(pre: string, d: string, post: string) returns (i: nat)
    ensures var msg := pre + "pull/" + d + post;
      IndexOf(msg, "pull/") == Some(i) && i <= |pre|
  {
    var msg := pre + "pull/" + d + post;
    assert msg[|pre|..|pre| + 5] == "pull/";
    assert OccursAt(msg, "pull/", |pre|);
    i := IndexOf(msg, "pull/").value;
  }

  /** Up to the end of the written "pull/", a text whose `pre` has no digit
      has no digit either. */
  lemma NoDigitBeforeNumber(pre: string, d: string, post: string, m: nat)
    requires forall k :: 0 <= k < |pre| ==> !IsDigit(pre[k])
    requires m < |pre| + 5
    ensures !IsDigit((pre + "pull/" + d + post)[m])
  {
    var msg := pre + "pull/" + d + post;
    if m < |pre| {
      assert msg[m] == pre[m];
    } else {
      assert msg[m] == "pull/"[m - |pre|];
    }
  }

  /** What follows the first "pull/" is digit-free junk, then the number. */
  lemma PullRest(pre: string, d: string, post: string) returns (junk: string)
    requires forall k :: 0 <= k < |pre| ==> !IsDigit(pre[k])
    ensures var msg := pre + "pull/" + d + post;
      && IndexOf(msg, "pull/").Some?
      && msg[IndexOf(msg, "pull/").value + 5..] == junk + (d + post)
      && forall k :: 0 <= k < |junk| ==> !IsDigit(junk[k])
  {
    var msg := pre + "pull/" + d + post;
    var i := PullAt(pre, d, post);
    junk := msg[i + 5..|pre| + 5];
    assert msg[|pre| + 5..] == d + post;
    assert msg[i + 5..] == junk + (d + post);
    forall k | 0 <= k < |junk| ensures !IsDigit(junk[k]) {
      assert junk[k] == msg[i + 5 + k];
      NoDigitBeforeNumber(pre, d, post, i + 5 + k);
    }
  }

  /** A message without '#' whose first "pull/" has a number after it (and
      no digit before it) yields that number: "see pull/99 for details". */
  lemma PullReference(pre: string, n: nat, post: string)
    requires forall k :: 0 <= k < |pre| ==> pre[k] != '#' && !IsDigit(pre[k])
    requires forall k :: 0 <= k < |post| ==> post[k] != '#'
    requires post == [] || !IsDigit(post[0])
    ensures ExtractPrNumber(pre + "pull/" + NatToDecimal(n) + post) == Some(n)
  {
    var d := NatToDecimal(n);
    var msg := pre + "pull/" + d + post;
    PullMessageHasNoHash(pre, d, post);
    WithoutHash(msg);
    var junk := PullRest(pre, d, post);
    ScanSkips(junk, d + post);
    ScanNumber(d, post);
    assert ["pull/"][0] == "pull/" && ["pull/"][1..] == [];
  }

  /** Without '#', only "pull/" can give a number. */
  lemma WithoutHash(msg: string)
    requires forall k :: 0 <= k < |msg| ==> msg[k] != '#'
    ensures ExtractPrNumber(msg) == ExtractFrom(msg, ["pull/"])
  {
    NoHashPrefixes(msg);
    var tail := ["PR #", "pull/"];
    assert Prefixes[0] == "#" && Prefixes[1..] == tail;
    assert tail[0] == "PR #" && tail[1..] == ["pull/"];
    assert ExtractPrNumber(msg) == ExtractFrom(msg, tail);
  }

  /** A message without any digit has no PR number. */
  lemma NoDigitNoNumber(msg: string)
    requires forall k :: 0 <= k < |msg| ==> !IsDigit(msg[k])
    ensures ExtractPrNumber(msg) == None
  {
    forall p | p in Prefixes ensures !FollowedByDigit(msg, p) {
      if FollowedByDigit(msg, p) {
        assert false;
      }
    }
    ExtractPrNumberSpec(msg);
  }

  lemma ExampleHash()
    ensures ExtractPrNumber("fix bug (#42)") == Some(42)
  {
    assert NatToDecimal(42) == "42" by { assert NatToDecimal(4) == "4"; }
    HashReference("fix bug (", 42, ")");
    assert "fix bug (" + "#" + "42" + ")" == "fix bug (#42)";
  }

  lemma ExamplePrHash()
    ensures ExtractPrNumber("Merge PR #7") == Some(7)
  {
    assert NatToDecimal(7) == "7";
    HashReference("Merge PR ", 7, "");
    assert "Merge PR " + "#" + "7" + "" == "Merge PR #7";
  }

  lemma ExampleNone()
    ensures ExtractPrNumber("refactor parser") == None
  {
    NoDigitNoNumber("refactor parser");
  }

  /** A message made of "#" and a number written by strconv.Itoa yields that
      number back. */
  lemma HashNumberRoundTrip(n: nat)
    ensures ExtractPrNumber("#" + NatToDecimal(n)) == Some(n)
  {
    var d := NatToDecimal(n);
    var msg := "#" + d;
    assert OccursAt(msg, "#", 0);
    assert IndexOf(msg, "#") == Some(0);
    assert msg[1..] == d;
    var b := ScanContinues(d[1..], [d[0]]);
    assert [d[0]] + d[1..] == d;
    assert "" + [d[0]] == [d[0]];
    assert ScanDigits(d, "") == ScanDigits(d[1..], [d[0]]);
    assert d[1..][..b] == d[1..] by {
      if b < |d[1..]| {
        assert false;
      }
    }
    assert ScanDigits(d, "") == d;
  }
}
