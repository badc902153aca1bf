/** Contract versions and the bump policy
    (src/fl_op/contracts/evolution.py, _parse_version and version_policy_errors). */
module VersionPolicy {
  import opened Text

  datatype Version = Version(major: nat, minor: nat, patch: nat)

  /** Python's order on (major, minor, patch). */
  predicate Less(a: Version, b: Version) {
    || a.major < b.major
    || (a.major == b.major && (a.minor < b.minor || (a.minor == b.minor && a.patch < b.patch)))
  }

  datatype Change = Identical | Backward | Breaking

  datatype PolicyError = WentBackwards | NotBumped | NeedsMajor | NeedsMinor

  /** The first rule a step breaks. */
  function PolicyErrors(was: Version, now: Version, change: Change): seq<PolicyError> {
    if change == Identical then (if Less(now, was) then [WentBackwards] else [])
    else if !Less(was, now) then [NotBumped]
    else if change == Breaking && now.major <= was.major then [NeedsMajor]
    else if change == Backward && now.major == was.major && now.minor <= was.minor then [NeedsMinor]
    else []
  }

  predicate Allowed(was: Version, now: Version, change: Change) { PolicyErrors(was, now, change) == [] }

  /** a is no newer than b, part by part from the left. */
  ghost predicate NoNewer(a: Version, b: Version) {
    && a.major <= b.major
    && (a.major == b.major ==> a.minor <= b.minor)
    && (a.major == b.major && a.minor == b.minor ==> a.patch <= b.patch)
  }

  /** What a consumer may rely on: within a major version nothing breaks, within a minor
      version nothing changes, and versions never go back. */
  lemma AllowedMeans(was: Version, now: Version, change: Change)
    ensures Allowed(was, now, change) <==>
            && NoNewer(was, now)
            && (was.major == now.major ==> change != Breaking)
            && (was.major == now.major && was.minor == now.minor ==> change == Identical)
  {
  }

  /** Which rule a step breaks: no change may go back, a change needs a newer version, a breaking
      one a new major and a compatible one a new minor version. */
  lemma PolicyErrorsMean(was: Version, now: Version, change: Change)
    ensures var errors := PolicyErrors(was, now, change);
            && |errors| <= 1
            && (errors == [WentBackwards] <==> change == Identical && !NoNewer(was, now))
            && (errors == [NotBumped] <==> change != Identical && NoNewer(now, was))
            && (errors == [NeedsMajor] <==> change == Breaking && !NoNewer(now, was) && was.major == now.major)
            && (errors == [NeedsMinor] <==>
                  change == Backward && !NoNewer(now, was) && was.major == now.major && was.minor == now.minor)
  {
  }

  /** Two allowed steps make an allowed step, for any classifier whose non-breaking and
      identical changes are transitive. */
  lemma AllowedComposes(a: Version, b: Version, c: Version, ab: Change, bc: Change, ac: Change)
    requires Allowed(a, b, ab) && Allowed(b, c, bc)
    requires ab != Breaking && bc != Breaking ==> ac != Breaking
    requires ab == Identical && bc == Identical ==> ac == Identical
    ensures Allowed(a, c, ac)
  {
    AllowedMeans(a, b, ab);
    AllowedMeans(b, c, bc);
    AllowedMeans(a, c, ac);
  }

  // ---- Version texts --------------------------------------------------------------------------------

  predicate IsDigit(ch: char) { '0' <= ch <= '9' }

  function Digits(part: string): string {
    if part == "" then ""
    else if IsDigit(part[0]) then [part[0]] + Digits(part[1..])
    else Digits(part[1..])
  }

  predicate AllDigits(s: string) { forall i :: 0 <= i < |s| ==> IsDigit(s[i]) }

  function Value(digits: string): nat
    requires AllDigits(digits)
  {
    if digits == "" then 0
    else 10 * Value(digits[..|digits| - 1]) + ((digits[|digits| - 1] as int) - ('0' as int))
  }

  /** Numbers are read in tens. */
  lemma PlaceValue(digits: string, n: nat)
    requires AllDigits(digits) && n < 10
    ensures Value(digits + ["0123456789"[n]]) == Value(digits) * 10 + n
  {
    var s := digits + ["0123456789"[n]];
    assert s[..|s| - 1] == digits;
  }

  lemma {:induction false} DigitsAreDigits(part: string)
    ensures AllDigits(Digits(part))
  {
    if part != "" { DigitsAreDigits(part[1..]); }
  }

  function Number(part: string): nat {
    DigitsAreDigits(part);
    Value(Digits(part))
  }

  function PartNumber(parts: seq<string>, k: nat): nat { if k < |parts| then Number(parts[k]) else 0 }

  /** Missing parts are 0 and anything but a digit is skipped. */
  function Parse(text: string): Version {
    var parts := Split(text, '.');
    Version(PartNumber(parts, 0), PartNumber(parts, 1), PartNumber(parts, 2))
  }

  method ParseVersion(text: string) returns (v: Version)
    ensures v == Parse(text)
  {
    var parts := Split(text, '.');
    var nums: seq<nat> := [];
    var used := if |parts| > 3 then 3 else |parts|;
    for k := 0 to used
      invariant |nums| == k && forall i :: 0 <= i < k ==> nums[i] == PartNumber(parts, i)
    {
      nums := nums + [Number(parts[k])];
    }
    while |nums| < 3
      invariant used <= |nums| <= 3 && forall i :: 0 <= i < |nums| ==> nums[i] == PartNumber(parts, i)
      decreases 3 - |nums|
    {
      nums := nums + [0];
    }
    v := Version(nums[0], nums[1], nums[2]);
  }

  function Decimal(n: nat): (r: string)
    ensures r != "" && AllDigits(r) && Value(r) == n
  {
    var last := [(('0' as int) + n % 10) as char];
    if n < 10 then
      assert Value(last[..0]) == 0;
      last
    else
      var r := Decimal(n / 10) + last;
      assert r[..|r| - 1] == Decimal(n / 10);
      r
  }

  function Render(v: Version): string {
    Decimal(v.major) + "." + Decimal(v.minor) + "." + Decimal(v.patch)
  }

  lemma {:induction false} DigitsOfDigits(s: string)
    requires AllDigits(s)
    ensures Digits(s) == s
  {
    if s != "" {
      DigitsOfDigits(s[1..]);
      assert s == [s[0]] + s[1..];
    }
  }

  /** Anything but a digit is skipped. */
  lemma {:induction false} OnlyDigitsCount(a: string, c: char, b: string)
    ensures Digits(a + [c] + b) == Digits(a) + (if '0' <= c <= '9' then [c] else []) + Digits(b)
  {
    var text := a + [c] + b;
    if a == "" {
      assert text[1..] == b;
    } else {
      OnlyDigitsCount(a[1..], c, b);
      assert text[1..] == a[1..] + [c] + b;
    }
  }

  /** Missing parts are zero and parts after the third do not matter. */
  lemma ShortAndLong(a: nat, b: nat, c: nat, rest: string)
    ensures Parse("") == Version(0, 0, 0) && Parse(Decimal(a)) == Version(a, 0, 0)
    ensures Parse(Decimal(a) + "." + Decimal(b)) == Version(a, b, 0)
    ensures Parse(Render(Version(a, b, c)) + "." + rest) == Version(a, b, c)
  {
    var x, y, z := Decimal(a), Decimal(b), Decimal(c);
    DigitsOfDigits(x);
    DigitsOfDigits(y);
    DigitsOfDigits(z);
    SplitPlain(x, '.');
    SplitPlain(y, '.');
    SplitAt(x, '.', y);
    assert Render(Version(a, b, c)) + "." + rest == x + "." + (y + "." + (z + "." + rest));
    SplitAt(x, '.', y + "." + (z + "." + rest));
    SplitAt(y, '.', z + "." + rest);
    SplitAt(z, '.', rest);
    assert Split("", '.') == [""] && Digits("") == "";
  }

  /** Every version survives being written and read. */
  lemma ParseRender(v: Version)
    ensures Parse(Render(v)) == v
  {
    var a, b, c := Decimal(v.major), Decimal(v.minor), Decimal(v.patch);
    assert Render(v) == a + "." + (b + "." + c);
    SplitAt(a, '.', b + "." + c);
    SplitAt(b, '.', c);
    SplitPlain(c, '.');
    DigitsOfDigits(a);
    DigitsOfDigits(b);
    DigitsOfDigits(c);
  }
}
