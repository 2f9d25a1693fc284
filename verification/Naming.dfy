/** Names of the tasks the publisher creates. */
module Naming {

  predicate Alnum(c: char) {
    'a' <= c <= 'z' || '0' <= c <= '9'
  }

  /** Lowercase letters, digits, '.' and '-' (section 2.1 of RFC 1123). */
  predicate Allowed(c: char) {
    Alnum(c) || c == '.' || c == '-'
  }

  /** What is used of Unicode lower-casing: it leaves the allowed characters alone. */
  ghost predicate LowerCasing(lower: char -> char) {
    forall c :: Allowed(c) ==> lower(c) == c
  }

  predicate AllAllowed(s: string) {
    forall i :: 0 <= i < |s| ==> Allowed(s[i])
  }

  function Replace(lower: char -> char, s: string): (r: string)
    ensures |r| == |s| && AllAllowed(r)
  {
    seq(|s|, i requires 0 <= i < |s| => if Allowed(lower(s[i])) then lower(s[i]) else '-')
  }

  function TrimLeft(s: string): (r: string)
    ensures AllAllowed(s) ==> AllAllowed(r)
    ensures r == "" || r[0] != '-'
  {
    if s != "" && s[0] == '-' then TrimLeft(s[1..]) else s
  }

  function TrimRight(s: string): (r: string)
    ensures AllAllowed(s) ==> AllAllowed(r)
    ensures r == "" || (s != "" && r[0] == s[0] && r[|r| - 1] != '-')
  {
    if s != "" && s[|s| - 1] == '-' then TrimRight(s[..|s| - 1]) else s
  }

  /** The replaced text holds no white space, so trimming white space has no effect; runs of
      dashes inside it are kept, not collapsed. */
  function Sanitize(lower: char -> char, s: string): string {
    var out := TrimRight(TrimLeft(Replace(lower, s)));
    if out == "" then "unknown" else out
  }

  /** A sanitized text is nonempty, uses only allowed characters and has no dash at either end. */
  lemma {:induction false} SanitizeShape(lower: char -> char, s: string)
    ensures var r := Sanitize(lower, s); r != "" && r[0] != '-' && r[|r| - 1] != '-' && AllAllowed(r)
  {
    var b := TrimLeft(Replace(lower, s));
    assert AllAllowed(TrimRight(b));
  }

  lemma {:induction false} SanitizeIdempotent(lower: char -> char, s: string)
    requires LowerCasing(lower)
    ensures Sanitize(lower, Sanitize(lower, s)) == Sanitize(lower, s)
  {
    var r := Sanitize(lower, s);
    SanitizeShape(lower, s);
    assert Replace(lower, r) == r;
  }

  lemma {:induction false} TrimLeftDrops(s: string) returns (p: nat)
    ensures p <= |s| && TrimLeft(s) == s[p..] && forall i :: 0 <= i < p ==> s[i] == '-'
  {
    p := 0;
    if s != "" && s[0] == '-' {
      var q := TrimLeftDrops(s[1..]);
      p := q + 1;
      assert forall i :: 0 < i < p ==> s[i] == s[1..][i - 1];
    }
  }

  lemma {:induction false} TrimRightDrops(s: string) returns (q: nat)
    ensures q <= |s| && TrimRight(s) == s[..q] && forall i :: q <= i < |s| ==> s[i] == '-'
  {
    q := |s|;
    if s != "" && s[|s| - 1] == '-' {
      q := TrimRightDrops(s[..|s| - 1]);
    }
  }

  lemma TrimKeeps(b: string) returns (p: nat, q: nat)
    ensures p <= q <= |b| && TrimRight(TrimLeft(b)) == b[p..q]
    ensures forall i :: 0 <= i < p || q <= i < |b| ==> b[i] == '-'
  {
    p := TrimLeftDrops(b);
    var rest := b[p..];
    var n := TrimRightDrops(rest);
    q := p + n;
    forall i | q <= i < |b| ensures b[i] == '-' {
      assert rest[i - p] == b[i];
    }
  }

  /** What sanitizing keeps: a stretch of the text, character by character, lower-cased or else replaced
      by a dash; before and after it there were only dashes and characters that become one. */
  lemma SanitizeKeeps(lower: char -> char, s: string) returns (p: nat, q: nat)
    ensures p <= q <= |s|
    ensures forall i :: 0 <= i < p || q <= i < |s| ==> lower(s[i]) == '-' || !Allowed(lower(s[i]))
    ensures var r := Sanitize(lower, s);
            if p == q then r == "unknown"
            else |r| == q - p && r[0] != '-' && r[|r| - 1] != '-'
                 && forall i :: 0 <= i < q - p ==> r[i] == if Allowed(lower(s[p + i])) then lower(s[p + i]) else '-'
  {
    hide TrimLeft, TrimRight;
    var b := Replace(lower, s);
    p, q := TrimKeeps(b);
    forall i | 0 <= i < p || q <= i < |s| ensures lower(s[i]) == '-' || !Allowed(lower(s[i])) {
      assert b[i] == '-';
    }
    SanitizeShape(lower, s);
  }

  /** A text that needs no repair is left alone. */
  lemma SanitizeFixes(lower: char -> char, s: string)
    requires LowerCasing(lower) && s != "" && AllAllowed(s) && s[0] != '-' && s[|s| - 1] != '-'
    ensures Sanitize(lower, s) == s
  {
    assert Replace(lower, s) == s;
  }

  /** A scenario identifier only loses its upper case. */
  lemma ScenarioName(lower: char -> char)
    requires LowerCasing(lower) && lower('S') == 's'
    ensures Sanitize(lower, "S1001") == "s1001"
  {
    assert Replace(lower, "S1001") == "s1001";
  }

  // ---------------------------------------------------------------- task names

  function Digit(d: nat): char
    requires d < 10
  {
    '0' + d as char
  }

  function Decimal(n: nat): (r: string)
    ensures r != "" && forall i :: 0 <= i < |r| ==> '0' <= r[i] <= '9'
  {
    if n < 10 then [Digit(n)] else Decimal(n / 10) + [Digit(n % 10)]
  }

  /** The number a text of digits stands for. */
  function NumberOf(s: string): nat
    requires forall i :: 0 <= i < |s| ==> '0' <= s[i] <= '9'
  {
    if s == "" then 0 else 10 * NumberOf(s[..|s| - 1]) + (s[|s| - 1] as int - '0' as int)
  }

  lemma {:induction false} DecimalReadsBack(n: nat)
    ensures NumberOf(Decimal(n)) == n
  {
    var r := Decimal(n);
    if n >= 10 {
      DecimalReadsBack(n / 10);
      assert r[..|r| - 1] == Decimal(n / 10);
    }
  }

  lemma {:induction false} DecimalInjective(m: nat, n: nat)
    requires Decimal(m) == Decimal(n)
    ensures m == n
  {
    var a, b := Decimal(m), Decimal(n);
    assert a[|a| - 1] == Digit(m % 10) && b[|b| - 1] == Digit(n % 10);
    assert m % 10 == n % 10;
    if m >= 10 && n >= 10 {
      assert a[..|a| - 1] == Decimal(m / 10) && b[..|b| - 1] == Decimal(n / 10);
      DecimalInjective(m / 10, n / 10);
    } else {
      assert |Decimal(m / 10)| >= 1 && |Decimal(n / 10)| >= 1;
    }
  }

  function TaskName(lower: char -> char, scenarioID: string, resource: string, millis: nat): string {
    "task" + "-" + Sanitize(lower, scenarioID) + "-" + Sanitize(lower, resource) + "-" + Decimal(millis)
  }

  lemma LastDashSplits(a: string, x: string, b: string, y: string)
    requires '-' !in x && '-' !in y
    requires a + "-" + x == b + "-" + y
    ensures a == b && x == y
  {
    var s, t := a + "-" + x, b + "-" + y;
    assert s[|a|] == '-' && t[|b|] == '-';
    assert forall i :: |a| < i < |s| ==> s[i] == x[i - |a| - 1] && s[i] != '-';
    assert forall i :: |b| < i < |t| ==> t[i] == y[i - |b| - 1] && t[i] != '-';
    assert |a| == |b|;
    assert a == s[..|a|] && b == t[..|b|];
    assert x == s[|a| + 1..] && y == t[|b| + 1..];
  }

  /** What a name says of its scenario and resource. */
  function Joined(lower: char -> char, scenarioID: string, resource: string): string {
    Sanitize(lower, scenarioID) + "-" + Sanitize(lower, resource)
  }

  lemma PrefixDrops(p: string, a: string, b: string)
    requires p + a == p + b
    ensures a == b
  {
    assert a == (p + a)[|p|..] && b == (p + b)[|p|..];
  }

  lemma Grouped(t: string, a: string, b: string)
    ensures t + "-" + a + "-" + b == (t + "-") + (a + "-" + b)
  {
    var whole := t + "-" + a + "-" + b;
    assert whole == (t + "-") + a + ("-" + b);
  }

  /** The name in three parts. */
  lemma NameParts(lower: char -> char, s: string, r: string, m: nat)
    ensures TaskName(lower, s, r, m) == (("task" + "-") + Joined(lower, s, r)) + "-" + Decimal(m)
  {
    Grouped("task", Sanitize(lower, s), Sanitize(lower, r));
  }

  /** Two generated names are equal exactly when they carry the same millisecond and the same joined
      scenario and resource names. Kind and namespace do not show in a name. */
  lemma SameNameIff(lower: char -> char, s: string, r: string, m: nat, s': string, r': string, m': nat)
    ensures TaskName(lower, s, r, m) == TaskName(lower, s', r', m') <==> m == m' && Joined(lower, s, r) == Joined(lower, s', r')
  {
    NameParts(lower, s, r, m);
    NameParts(lower, s', r', m');
    var p, j, j' := "task" + "-", Joined(lower, s, r), Joined(lower, s', r');
    if TaskName(lower, s, r, m) == TaskName(lower, s', r', m') {
      LastDashSplits(p + j, Decimal(m), p + j', Decimal(m'));
      PrefixDrops(p, j, j');
      DecimalInjective(m, m');
    }
  }

  // ---------------------------------------------------------------- when the server accepts a name

  predicate Label(l: string) {
    && l != "" && Alnum(l[0]) && Alnum(l[|l| - 1])
    && forall i :: 0 <= i < |l| ==> Alnum(l[i]) || l[i] == '-'
  }

  function FirstDot(s: string): (k: nat)
    ensures k <= |s| && (k < |s| ==> s[k] == '.')
    ensures forall i :: 0 <= i < k ==> s[i] != '.'
  {
    if s == "" || s[0] == '.' then 0 else 1 + FirstDot(s[1..])
  }

  /** Labels separated by dots. */
  predicate DottedLabels(s: string)
    decreases |s|
  {
    var k := FirstDot(s);
    Label(s[..k]) && (k < |s| ==> DottedLabels(s[k + 1..]))
  }

  /** The API server takes an object name if it is a subdomain name of at most 253 characters. */
  predicate ValidObjectName(s: string) {
    |s| <= 253 && DottedLabels(s)
  }

  /** A dot at position i stands between letters or digits. */
  predicate Guarded(s: string, i: nat)
    requires i < |s|
  {
    s[i] == '.' ==> 0 < i < |s| - 1 && Alnum(s[i - 1]) && Alnum(s[i + 1])
  }

  predicate DotsGuarded(s: string) {
    forall i {:trigger Guarded(s, i)} :: 0 <= i < |s| ==> Guarded(s, i)
  }

  predicate WellGuarded(s: string) {
    && s != "" && Alnum(s[0]) && Alnum(s[|s| - 1])
    && (forall i :: 0 <= i < |s| ==> Allowed(s[i]))
    && DotsGuarded(s)
  }

  /** Joining two texts with a dash neither guards nor unguards a dot. */
  lemma DashKeepsGuards(x: string, y: string)
    ensures DotsGuarded(x + "-" + y) <==> DotsGuarded(x) && DotsGuarded(y)
    ensures AllAllowed(x) && AllAllowed(y) ==> AllAllowed(x + "-" + y)
  {
    var s := x + "-" + y;
    var n := |x| + 1;
    forall i | 0 <= i < |x| ensures Guarded(s, i) <==> Guarded(x, i) {
      assert s[i] == x[i] && s[|x|] == '-' && (i > 0 ==> s[i - 1] == x[i - 1]) && (i + 1 < |x| ==> s[i + 1] == x[i + 1]);
    }
    forall i | 0 <= i < |y| ensures s[n + i] == y[i] && (Guarded(s, n + i) <==> Guarded(y, i)) {
      assert s[n + i] == y[i] && s[n - 1] == '-' && (i > 0 ==> s[n + i - 1] == y[i - 1]) && (i + 1 < |y| ==> s[n + i + 1] == y[i + 1]);
    }
    assert Guarded(s, |x|) && forall i :: n <= i < |s| ==> s[i] == y[i - n];
    if DotsGuarded(x) && DotsGuarded(y) {
      forall i | 0 <= i < |s| ensures Guarded(s, i) {
        assert i > |x| ==> Guarded(y, i - n) && n + (i - n) == i;
      }
    }
  }

  lemma FirstLabelGuards(l: string, rest: string)
    requires '.' !in l
    ensures WellGuarded(l + "." + rest) <==> Label(l) && WellGuarded(rest)
  {
    if WellGuarded(l + "." + rest) {
      SplitGuards(l, rest);
    }
    if Label(l) && WellGuarded(rest) {
      JoinGuards(l, rest);
    }
  }

  lemma SplitGuards(l: string, rest: string)
    requires '.' !in l && WellGuarded(l + "." + rest)
    ensures Label(l) && WellGuarded(rest)
  {
    var s := l + "." + rest;
    var n := |l| + 1;
    assert s[|l|] == '.' && Guarded(s, |l|);
    assert 0 < |l| && Alnum(s[|l| - 1]) && Alnum(s[n]);
    assert forall i :: 0 <= i < |l| ==> l[i] == s[i];
    assert forall i :: 0 <= i < |rest| ==> rest[i] == s[n + i];
    forall i | 0 <= i < |rest| ensures Guarded(rest, i) {
      assert Guarded(s, n + i);
    }
  }

  lemma JoinGuards(l: string, rest: string)
    requires '.' !in l && Label(l) && WellGuarded(rest)
    ensures WellGuarded(l + "." + rest)
  {
    var s := l + "." + rest;
    var n := |l| + 1;
    assert s[|l|] == '.';
    assert forall i :: 0 <= i < |l| ==> s[i] == l[i] && s[i] != '.';
    assert forall i :: n <= i < |s| ==> s[i] == rest[i - n];
    forall i | 0 <= i < |s| ensures Guarded(s, i) {
      if i >= n {
        assert Guarded(rest, i - n);
      }
    }
  }

  lemma {:induction false} DottedLabelsAreGuarded(s: string)
    ensures DottedLabels(s) <==> WellGuarded(s)
    decreases |s|
  {
    var k := FirstDot(s);
    if k < |s| {
      DottedLabelsAreGuarded(s[k + 1..]);
      FirstLabelGuards(s[..k], s[k + 1..]);
      assert s == s[..k] + "." + s[k + 1..];
    } else {
      assert s[..k] == s;
    }
  }

  lemma FourPartsGuarded(f: string, a: string, b: string, d: string)
    requires f != "" && Alnum(f[0]) && AllAllowed(f) && DotsGuarded(f)
    requires d != "" && Alnum(d[|d| - 1]) && AllAllowed(d) && DotsGuarded(d)
    requires AllAllowed(a) && AllAllowed(b)
    ensures WellGuarded(f + "-" + a + "-" + b + "-" + d) <==> DotsGuarded(a) && DotsGuarded(b)
  {
    var front := f + "-" + a;
    var name := front + "-" + b + "-" + d;
    DashKeepsGuards(f, a);
    DashKeepsGuards(front, b);
    DashKeepsGuards(front + "-" + b, d);
    assert name[0] == f[0] && name[|name| - 1] == d[|d| - 1];
  }

  /** A generated name is accepted exactly when it is short enough and every dot of the two
      sanitized parts stands between letters or digits of its part. The character rule alone
      does not give this: see the next lemma. */
  lemma TaskNameValidIff(lower: char -> char, scenarioID: string, resource: string, millis: nat)
    ensures var a, b := Sanitize(lower, scenarioID), Sanitize(lower, resource);
            var name := TaskName(lower, scenarioID, resource, millis);
            ValidObjectName(name) <==> |name| <= 253 && DotsGuarded(a) && DotsGuarded(b)
  {
    var a, b, d := Sanitize(lower, scenarioID), Sanitize(lower, resource), Decimal(millis);
    SanitizeShape(lower, scenarioID);
    SanitizeShape(lower, resource);
    FourPartsGuarded("task", a, b, d);
    var name := TaskName(lower, scenarioID, resource, millis);
    DottedLabelsAreGuarded(name);
  }

  /** A text that ends in a dot still does so when it is sanitized. */
  lemma DotStays(lower: char -> char, r: string)
    requires LowerCasing(lower)
    ensures var b := Sanitize(lower, r + "."); b[|b| - 1] == '.'
  {
    var b := Replace(lower, r + ".");
    assert b[|r|] == '.';
    TrimLeftKeepsEnd(b);
  }

  lemma {:induction false} TrimLeftKeepsEnd(s: string)
    requires s != "" && s[|s| - 1] != '-'
    ensures TrimLeft(s) != "" && TrimLeft(s)[|TrimLeft(s)| - 1] == s[|s| - 1]
  {
    if s[0] == '-' {
      TrimLeftKeepsEnd(s[1..]);
    }
  }

  /** Every task for a resource whose name ends in a dot gets an invalid name, whatever the scenario
      and the time. */
  lemma SanitizedNameCanBeInvalid(lower: char -> char, scenarioID: string, resource: string, millis: nat)
    requires LowerCasing(lower) && resource != "" && resource[|resource| - 1] == '.'
    ensures !ValidObjectName(TaskName(lower, scenarioID, resource, millis))
  {
    var b := Sanitize(lower, resource);
    assert resource == resource[..|resource| - 1] + ".";
    DotStays(lower, resource[..|resource| - 1]);
    assert !Guarded(b, |b| - 1);
    TaskNameValidIff(lower, scenarioID, resource, millis);
  }
}
