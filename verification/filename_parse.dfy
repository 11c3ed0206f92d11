/**
 * The file-name parse of the deduplication pass: `re.match` of the pattern
 * `(.+v)(\d+)((p|v|o|m)\.pdf)` against a downloaded file name.
 *
 * `re.match` anchors the pattern at the start of the name only, so anything may
 * follow `.pdf`. The greedy `.+` makes the engine try the longest group 1 first
 * and back off one character at a time; the greedy `\d+` takes the longest digit
 * run, and a shorter run can never succeed because the character after it would
 * be a digit rather than one of `p`, `v`, `o`, `m`. So the match found is the one
 * whose group 1 ends as far right as possible.
 */
module FileNameParse {
  import opened Wrappers

  /** A successful parse: group 1 (the base, ending in the marker `v`) and
      group 2 read as a decimal integer, as `int()` reads it. */
  datatype Versioned = Versioned(base: string, version: nat)

  const Extension: string := ".pdf"

  predicate IsDigit(c: char) {
    '0' <= c <= '9'
  }

  predicate AllDigits(s: string) {
    forall i :: 0 <= i < |s| ==> IsDigit(s[i])
  }

  /** The alternatives of `(p|v|o|m)`. */
  predicate IsTag(c: char) {
    c == 'p' || c == 'v' || c == 'o' || c == 'm'
  }

  /** `.` matches every character except a line feed. */
  predicate NoLineFeed(s: string) {
    forall i :: 0 <= i < |s| ==> s[i] != '\n'
  }

  function Pow10(n: nat): (p: nat)
    ensures p >= 1
  {
    if n == 0 then 1 else 10 * Pow10(n - 1)
  }

  /** The decimal value of a digit run. */
  function DigitsValue(s: string): nat
    requires AllDigits(s)
  {
    if |s| == 0 then 0
    else 10 * DigitsValue(s[..|s| - 1]) + (s[|s| - 1] as int - '0' as int)
  }

  /** Length of the longest run of digits starting at `i`: what the greedy `\d+` takes. */
  function DigitRun(s: string, i: nat): (n: nat)
    requires i <= |s|
    ensures i + n <= |s|
    ensures AllDigits(s[i..i + n])
    ensures i + n == |s| || !IsDigit(s[i + n])
    decreases |s| - i
  {
    if i < |s| && IsDigit(s[i]) then
      var n := DigitRun(s, i + 1);
      assert s[i..i + 1 + n] == [s[i]] + s[i + 1..i + 1 + n];
      1 + n
    else 0
  }

  /** The pattern matches at the start of `name` with group 1 = `name[..k]`
      and group 2 = `name[k..k + d]`. */
  predicate MatchesWith(name: string, k: int, d: int) {
    && 2 <= k
    && 1 <= d
    && k + d + 5 <= |name|
    && NoLineFeed(name[..k - 1])
    && name[k - 1] == 'v'
    && AllDigits(name[k..k + d])
    && IsTag(name[k + d])
    && name[k + d + 1..k + d + 5] == Extension
  }

  /** Group 1 can end at `k`, with `\d+` taking the whole digit run after it. */
  predicate MatchesAt(name: string, k: nat) {
    k <= |name| && MatchesWith(name, k, DigitRun(name, k))
  }

  /** The pattern matches `name` in some way. */
  ghost predicate Accepts(name: string) {
    exists k, d :: MatchesWith(name, k, d)
  }

  /** The ends of group 1 are tried from `k` downward, as the greedy `.+` backs off. */
  function RightmostSplit(name: string, k: nat): (r: Option<nat>)
    requires k <= |name|
    ensures r.Some? ==> r.value <= k && MatchesAt(name, r.value)
    ensures r.Some? ==> forall j :: r.value < j <= k ==> !MatchesAt(name, j)
    ensures r.None? ==> forall j :: 0 <= j <= k ==> !MatchesAt(name, j)
    decreases k
  {
    if k < 2 then None
    else if MatchesAt(name, k) then Some(k)
    else RightmostSplit(name, k - 1)
  }

  /** `re.match(r'(.+v)(\d+)((p|v|o|m)\.pdf)', name)`, with groups 1 and 2 extracted. */
  function Parse(name: string): (r: Option<Versioned>)
    ensures r.Some? ==> 2 <= |r.value.base| && r.value.base < name
    ensures r.Some? ==> r.value.base[|r.value.base| - 1] == 'v'
  {
    match RightmostSplit(name, |name|)
    case None => None
    case Some(k) =>
      var d := DigitRun(name, k);
      Some(Versioned(name[..k], DigitsValue(name[k..k + d])))
  }

  /** A digit run followed by a non-digit (or the end) is exactly what `\d+` takes. */
  lemma {:induction false} DigitRunUnique(s: string, i: nat, d: nat)
    requires i + d <= |s|
    requires AllDigits(s[i..i + d])
    requires i + d == |s| || !IsDigit(s[i + d])
    ensures DigitRun(s, i) == d
    decreases d
  {
    if d > 0 {
      assert s[i..i + d][0] == s[i];
      assert s[i + 1..i + d] == s[i..i + d][1..];
      DigitRunUnique(s, i + 1, d - 1);
    }
  }

  lemma MatchesWithTakesWholeRun(name: string, k: int, d: int)
    requires MatchesWith(name, k, d)
    ensures d == DigitRun(name, k) && MatchesAt(name, k)
  {
    DigitRunUnique(name, k, d);
  }

  /** Parse succeeds exactly when the pattern matches in some way. */
  lemma ParseSucceedsIffAccepted(name: string)
    ensures Parse(name).Some? <==> Accepts(name)
  {
    var split := RightmostSplit(name, |name|);
    if split.Some? {
      assert MatchesWith(name, split.value, DigitRun(name, split.value));
    } else if Accepts(name) {
      var k, d :| MatchesWith(name, k, d);
      MatchesWithTakesWholeRun(name, k, d);
      assert false;
    }
  }

  /** The backing-off search stops at the rightmost group-1 end the pattern allows. */
  lemma RightmostSplitFindsLast(name: string, k: int, d: int)
    requires MatchesWith(name, k, d)
    requires forall k', d' :: MatchesWith(name, k', d') ==> k' <= k
    ensures RightmostSplit(name, |name|) == Some(k) && DigitRun(name, k) == d
  {
    MatchesWithTakesWholeRun(name, k, d);
    var split := RightmostSplit(name, |name|);
    assert split.Some? by {
      assert k <= |name| && MatchesAt(name, k);
    }
    var j := split.value;
    assert j <= k by {
      assert MatchesWith(name, j, DigitRun(name, j));
    }
  }

  /** On a match, the base is the name up to the rightmost possible group-1 end
      and the version is the digit run after it, read as an integer. */
  lemma ParseTakesRightmostMatch(name: string, k: int, d: int)
    requires MatchesWith(name, k, d)
    requires forall k', d' :: MatchesWith(name, k', d') ==> k' <= k
    ensures Parse(name) == Some(Versioned(name[..k], DigitsValue(name[k..k + d])))
  {
    RightmostSplitFindsLast(name, k, d);
  }

  /** Only the start is anchored: text after a matching name keeps it matching. */
  lemma TrailingTextKeepsMatch(name: string, rest: string)
    requires Parse(name).Some?
    ensures Parse(name + rest).Some?
  {
    ParseSucceedsIffAccepted(name);
    var k, d :| MatchesWith(name, k, d);
    var longer := name + rest;
    assert longer[..k - 1] == name[..k - 1];
    assert longer[k..k + d] == name[k..k + d];
    assert longer[k + d + 1..k + d + 5] == name[k + d + 1..k + d + 5];
    assert MatchesWith(longer, k, d);
    ParseSucceedsIffAccepted(longer);
  }

  lemma {:induction false} DigitsValueBelow(s: string)
    requires AllDigits(s)
    ensures DigitsValue(s) < Pow10(|s|)
  {
    if |s| > 0 {
      DigitsValueBelow(s[..|s| - 1]);
    }
  }

  lemma {:induction false} DigitsValueAtLeast(s: string)
    requires AllDigits(s) && |s| > 0 && s[0] != '0'
    ensures DigitsValue(s) >= Pow10(|s| - 1)
  {
    if |s| > 1 {
      var t := s[..|s| - 1];
      assert t[0] == s[0];
      DigitsValueAtLeast(t);
    }
  }

  lemma {:induction false} Pow10Monotone(m: nat, n: nat)
    requires m <= n
    ensures Pow10(m) <= Pow10(n)
    decreases n
  {
    if m < n {
      Pow10Monotone(m, n - 1);
    }
  }

  /** Versions compare as integers, not as text: a longer digit run without a
      leading zero outranks a shorter one (`10` outranks `9`). */
  lemma LongerRunOutranks(a: string, b: string)
    requires AllDigits(a) && AllDigits(b)
    requires |a| > |b| && a[0] != '0'
    ensures DigitsValue(a) > DigitsValue(b)
  {
    DigitsValueAtLeast(a);
    DigitsValueBelow(b);
    Pow10Monotone(|b|, |a| - 1);
  }

  /** Leading zeros do not change a version (`007` reads as `7`). */
  lemma {:induction false} LeadingZeroIgnored(s: string)
    requires AllDigits(s)
    ensures AllDigits("0" + s) && DigitsValue("0" + s) == DigitsValue(s)
  {
    if |s| > 0 {
      var t := s[..|s| - 1];
      assert ("0" + s)[..|s|] == "0" + t;
      LeadingZeroIgnored(t);
    }
  }
}
