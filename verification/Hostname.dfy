/** Hostnames of the `.et` domain: how a free one is found and how a query is read back. */
module Hostname {
  import opened Bytes

  // ---------- decimal suffixes ----------

  function Digit(d: nat): (c: char)
    requires d < 10
    ensures c as int == '0' as int + d
  {
    ('0' as int + d) as char
  }

  /** `strconv.Itoa` on a non-negative number. */
  function Itoa(n: nat): (s: string)
    ensures |s| >= 1
  {
    if n < 10 then [Digit(n)] else Itoa(n / 10) + [Digit(n % 10)]
  }

  lemma {:induction false} ItoaInjective(m: nat, n: nat)
    requires Itoa(m) == Itoa(n)
    ensures m == n
  {
    var x, y := Itoa(m), Itoa(n);
    assert x[|x| - 1] == Digit(m % 10) && y[|y| - 1] == Digit(n % 10);
    if m >= 10 && n >= 10 {
      assert x[..|x| - 1] == Itoa(m / 10) && y[..|y| - 1] == Itoa(n / 10);
      ItoaInjective(m / 10, n / 10);
    }
  }

  /** The number a string of decimal digits stands for. */
  function Value(s: string): nat
    requires forall i :: 0 <= i < |s| ==> '0' <= s[i] <= '9'
  {
    if s == [] then 0 else Value(s[..|s| - 1]) * 10 + (s[|s| - 1] as int - '0' as int)
  }

  /** `Itoa` writes the number in decimal, without leading zeros. */
  lemma {:induction false} ItoaReads(n: nat)
    ensures forall i :: 0 <= i < |Itoa(n)| ==> '0' <= Itoa(n)[i] <= '9'
    ensures Value(Itoa(n)) == n && (n > 0 ==> Itoa(n)[0] != '0')
  {
    if n < 10 {
      assert Itoa(n)[..0] == [];
    } else {
      ItoaReads(n / 10);
      assert Itoa(n)[..|Itoa(n)| - 1] == Itoa(n / 10);
    }
  }

  function Candidate(hostname: string, i: nat): string {
    hostname + "-" + Itoa(i)
  }

  lemma CandidateInjective(hostname: string, i: nat, j: nat)
    requires Candidate(hostname, i) == Candidate(hostname, j)
    ensures i == j
  {
    assert Candidate(hostname, i)[|hostname| + 1..] == Itoa(i);
    assert Candidate(hostname, j)[|hostname| + 1..] == Itoa(j);
    ItoaInjective(i, j);
  }

  // ---------- the search ----------

  /** The wanted name and its first `i - 1` suffixed forms are all taken. */
  predicate Probed(hostname: string, taken: set<string>, i: nat) {
    i >= 1 && hostname in taken && forall j: nat :: 1 <= j < i ==> Candidate(hostname, j) in taken
  }

  function Suffixed(hostname: string, i: nat): (s: set<string>) {
    if i <= 1 then {hostname} else Suffixed(hostname, i - 1) + {Candidate(hostname, i - 1)}
  }

  lemma {:induction false} SuffixedSize(hostname: string, i: nat, taken: set<string>)
    requires Probed(hostname, taken, i)
    ensures |Suffixed(hostname, i)| == i && Suffixed(hostname, i) <= taken
    ensures forall j: nat :: j >= i && j >= 1 ==> Candidate(hostname, j) !in Suffixed(hostname, i)
  {
    if i > 1 {
      SuffixedSize(hostname, i - 1, taken);
      forall j: nat | j >= i ensures Candidate(hostname, j) != Candidate(hostname, i - 1) {
        if Candidate(hostname, j) == Candidate(hostname, i - 1) { CandidateInjective(hostname, j, i - 1); }
      }
    }
  }

  /** Each probe that fails is another name of the table: there are at most so many. */
  lemma ProbesBounded(hostname: string, taken: set<string>, i: nat)
    requires Probed(hostname, taken, i)
    ensures i <= |taken|
  {
    SuffixedSize(hostname, i, taken);
    SubsetSize(Suffixed(hostname, i), taken);
  }

  function Search(hostname: string, taken: set<string>, i: nat): (k: nat)
    requires Probed(hostname, taken, i)
    ensures k >= i && Probed(hostname, taken, k) && Candidate(hostname, k) !in taken
    decreases |taken| - i
  {
    if Candidate(hostname, i) !in taken then i
    else
      ProbesBounded(hostname, taken, i + 1);
      Search(hostname, taken, i + 1)
  }

  /** The hostname a new client gets. */
  function Unique(hostname: string, taken: set<string>): (r: string)
    ensures r !in taken
    ensures hostname !in taken ==> r == hostname
    ensures hostname in taken ==> exists k: nat :: Probed(hostname, taken, k) && k <= |taken| && r == Candidate(hostname, k)
  {
    if hostname !in taken then hostname else
      var k := Search(hostname, taken, 1);
      ProbesBounded(hostname, taken, k);
      Candidate(hostname, k)
  }

  /** The program's own loop.  It ends within |taken| + 1 probes, on a free name, and no
      smaller suffix would have been free. */
  method UniqueHostName(hostname: string, taken: set<string>) returns (r: string, probes: nat)
    ensures r !in taken && probes <= |taken| + 1
    ensures probes == 1 ==> r == hostname
    ensures probes != 1 ==> probes >= 2 && Probed(hostname, taken, probes - 1) && r == Candidate(hostname, probes - 1)
    ensures r == Unique(hostname, taken)
  {
    if hostname !in taken { return hostname, 1; }
    var i := 1;
    while true
      invariant Probed(hostname, taken, i)
      invariant Search(hostname, taken, 1) == Search(hostname, taken, i)
      decreases |taken| - i
    {
      var newName := Candidate(hostname, i);
      ProbesBounded(hostname, taken, i);
      if newName !in taken { return newName, i + 1; }
      ProbesBounded(hostname, taken, i + 1);
      i := i + 1;
    }
  }

  // ---------- reading a query back ----------

  const DOMAIN: string := ".et."

  predicate OccursAt(s: string, k: nat) {
    k + |DOMAIN| <= |s| && s[k..k + |DOMAIN|] == DOMAIN
  }

  /** Where `strings.Replace(s, ".et.", "", 1)` cuts, searching from `k`; |s| when it does not. */
  function FirstDomain(s: string, k: nat): (n: nat)
    requires k <= |s|
    ensures k <= n <= |s|
    ensures n < |s| ==> OccursAt(s, n)
    ensures forall j: nat :: k <= j < n ==> !OccursAt(s, j)
    decreases |s| - k
  {
    if k == |s| then |s| else if OccursAt(s, k) then k else FirstDomain(s, k + 1)
  }

  function StripDomain(query: string): string {
    var k := FirstDomain(query, 0);
    if k == |query| then query else query[..k] + query[k + |DOMAIN|..]
  }

  function Repeat(n: nat): string {
    if n == 0 then "" else DOMAIN + Repeat(n - 1)
  }

  lemma {:induction false} RepeatCommutes(n: nat)
    ensures Repeat(n) + DOMAIN == DOMAIN + Repeat(n)
  {
    if n > 0 {
      RepeatCommutes(n - 1);
      assert Repeat(n) + DOMAIN == DOMAIN + (Repeat(n - 1) + DOMAIN);
    }
  }

  lemma ShortTail(u: string)
    requires 0 < |u| < 4
    ensures u + DOMAIN != DOMAIN + u
  {
    var x, y := u + DOMAIN, DOMAIN + u;
    assert x[|u|] == '.' && y[|u|] == DOMAIN[|u|];
    assert x[0] == u[0] && y[0] == '.' && y[4] == u[0];
    if |u| == 3 { assert x[4] == 'e'; }
  }

  /** A tail that the domain can be moved across consists of copies of the domain. */
  lemma {:induction false} CommutesIsRepeat(u: string) returns (n: nat)
    requires u + DOMAIN == DOMAIN + u
    ensures u == Repeat(n)
    decreases |u|
  {
    if u == "" { return 0; }
    if |u| < 4 { ShortTail(u); }
    var x, y := u + DOMAIN, DOMAIN + u;
    assert u == x[..|u|] == y[..|u|];
    assert u[..4] == DOMAIN;
    var v := u[4..];
    assert u == DOMAIN + v;
    assert DOMAIN + (v + DOMAIN) == u + DOMAIN == DOMAIN + (DOMAIN + v);
    assert v + DOMAIN == (DOMAIN + (v + DOMAIN))[4..] == (DOMAIN + (DOMAIN + v))[4..] == DOMAIN + v;
    var m := CommutesIsRepeat(v);
    return m + 1;
  }

  /** Where the domain first appears in a fully qualified name. */
  function Cut(h: string): (k: nat)
    ensures k <= |h| && OccursAt(h + DOMAIN, k)
  {
    assert OccursAt(h + DOMAIN, |h|);
    FirstDomain(h + DOMAIN, 0)
  }

  /** A query for `h.et.` is answered for `h` exactly when `h`, from where `.et.` first shows
      in the query, is nothing but copies of `.et.`. */
  lemma StripExact(h: string)
    ensures StripDomain(h + DOMAIN) == h <==> exists n :: h[Cut(h)..] == Repeat(n)
  {
    var q, k := h + DOMAIN, Cut(h);
    var u := h[k..];
    assert q == h[..k] + (u + DOMAIN);
    assert q[k..k + 4] == DOMAIN;
    assert u + DOMAIN == q[k..] == DOMAIN + q[k + 4..];
    assert StripDomain(q) == h[..k] + q[k + 4..];
    assert h == h[..k] + u;
    if StripDomain(q) == h {
      assert q[k + 4..] == StripDomain(q)[k..] == u;
      var n := CommutesIsRepeat(u);
    }
    if n :| u == Repeat(n) {
      RepeatCommutes(n);
      assert q[k + 4..] == (DOMAIN + q[k + 4..])[4..] == (DOMAIN + u)[4..] == u;
    }
  }

  /** The first `.et.` of a query is cut out, wherever it is; without one nothing is. */
  lemma StripFirst(query: string, k: nat)
    requires k <= |query| && forall j: nat :: j < k ==> !OccursAt(query, j)
    ensures k + 4 <= |query| && query[k..k + 4] == ".et." ==> StripDomain(query) == query[..k] + query[k + 4..]
    ensures k == |query| ==> StripDomain(query) == query
  {
    if k + 4 <= |query| && query[k..k + 4] == ".et." {
      assert OccursAt(query, k);
      assert FirstDomain(query, 0) == k;
    }
  }

  /** In particular for every hostname without a dot. */
  lemma StripDotFree(h: string)
    requires '.' !in h
    ensures StripDomain(h + DOMAIN) == h
  {
    var k := Cut(h);
    var q := h + DOMAIN;
    assert q[k] == q[k..k + 4][0] == '.';
    assert k == |h|;
    assert h[k..] == Repeat(0);
    StripExact(h);
  }

  /** A client that calls itself "x.et" is looked up as "xet.": the domain is cut out where it
      first shows in "x.et.et.", which is inside the name. */
  lemma StripFails()
    ensures StripDomain("x.et" + DOMAIN) == "xet." && StripDomain("x.et" + DOMAIN) != "x.et"
  {
    var q := "x.et.et.";
    assert "x.et" + DOMAIN == q;
    assert q[1..5] == DOMAIN && q[0..4] != DOMAIN;
    assert FirstDomain(q, 0) == 1;
    assert q[..1] + q[5..] == "xet.";
  }

  lemma NamesOf()
    ensures Unique("web", {"db"}) == "web" && Unique("web", {"web"}) == "web-1" && Unique("web", {"web", "web-1"}) == "web-2"
  {
    assert Itoa(1) == "1" && Itoa(2) == "2";
    assert Candidate("web", 1) == "web-1" && Candidate("web", 2) == "web-2";
  }
}
