/**
  The collision-avoiding name choice of `ensure_unique_path` (local_to_s3.py:14-28): a path
  that does not exist is kept; otherwise `_1`, `_2`, ... is put between the path's stem and
  its extension, and the first name that does not exist is taken.
*/
module UniquePaths {

  /** The last index of `c` in `s`, or -1 (`str.rfind`). */
  function RFind(s: string, c: char): (i: int)
    ensures -1 <= i < |s|
    ensures i >= 0 ==> s[i] == c
    ensures forall k :: i < k < |s| ==> s[k] != c
  {
    if s == [] then -1
    else if s[|s| - 1] == c then |s| - 1
    else RFind(s[..|s| - 1], c)
  }

  /** Whether `s[from..to]` holds a character other than '.'. */
  predicate HasNonDot(s: string, from: int, to: int)
    requires 0 <= from && to <= |s|
  {
    exists k :: from <= k < to && s[k] != '.'
  }

  /** `os.path.splitext` on POSIX: the extension starts at the last '.' of the last path
      component, unless everything before that dot in the component is dots too. */
  function SplitExt(p: string): (r: (string, string))
    ensures r.0 + r.1 == p
    ensures r.1 == [] || (r.1[0] == '.' && forall k :: 0 < k < |r.1| ==> r.1[k] != '.' && r.1[k] != '/')
  {
    var sep := RFind(p, '/');
    var dot := RFind(p, '.');
    if dot > sep && HasNonDot(p, sep + 1, dot) then (p[..dot], p[dot..]) else (p, [])
  }

  /** `p[k]` is a '.' of the last path component with a character other than '.' before it
      in that component: a dot `splitext` may split at. */
  predicate ExtensionDot(p: string, k: int)
  {
    RFind(p, '/') < k < |p| && p[k] == '.' && HasNonDot(p, RFind(p, '/') + 1, k)
  }

  /** When some dot may be split at, the last '.' of the path is one too. */
  lemma LastDotIsExtensionDot(p: string, k: int)
    requires ExtensionDot(p, k)
    ensures ExtensionDot(p, RFind(p, '.'))
  {
    var sep, dot := RFind(p, '/'), RFind(p, '.');
    var m :| sep + 1 <= m < k && p[m] != '.';
    assert k <= dot;
    assert sep + 1 <= m < dot && p[m] != '.';
  }

  /** The extension is non-empty exactly when the path has a dot `splitext` may split at;
      with the clauses of `SplitExt` this makes it the suffix from the last '.'. */
  lemma SplitExtHasExtension(p: string)
    ensures SplitExt(p).1 != [] <==> exists k :: ExtensionDot(p, k)
  {
    var dot := RFind(p, '.');
    assert SplitExt(p).1 != [] <==> ExtensionDot(p, dot);
    forall k | ExtensionDot(p, k)
      ensures ExtensionDot(p, dot)
    {
      LastDotIsExtensionDot(p, k);
    }
  }

  function DigitChar(d: nat): char
    requires d < 10
  {
    ('0' as int + d) as char
  }

  /** `str(n)` for a natural number: decimal digits, the first of them not '0' unless n is 0. */
  function NatToString(n: nat): (r: string)
    ensures |r| >= 1
    ensures n < 10 <==> |r| == 1
    decreases n
  {
    if n < 10 then [DigitChar(n)] else NatToString(n / 10) + [DigitChar(n % 10)]
  }

  /** The number a string of decimal digits denotes. */
  function DecimalValue(s: string): int
  {
    if s == [] then 0 else 10 * DecimalValue(s[..|s| - 1]) + (s[|s| - 1] as int - '0' as int)
  }

  /** The text `str(n)` is decimal digits, without a leading '0' unless n is 0. */
  lemma {:induction false} NatToStringDigits(n: nat)
    ensures forall i :: 0 <= i < |NatToString(n)| ==> '0' <= NatToString(n)[i] <= '9'
    ensures NatToString(n)[0] == '0' ==> n == 0
    decreases n
  {
    if n >= 10 {
      NatToStringDigits(n / 10);
      assert NatToString(n)[0] == NatToString(n / 10)[0];
    }
  }

  /** The text `str(n)` reads back as n. */
  lemma {:induction false} NatToStringValue(n: nat)
    ensures DecimalValue(NatToString(n)) == n
    decreases n
  {
    if n >= 10 {
      var r := NatToString(n);
      NatToStringValue(n / 10);
      assert r[..|r| - 1] == NatToString(n / 10);
    }
  }

  lemma NatToStringInjective(n: nat, m: nat)
    requires NatToString(n) == NatToString(m)
    ensures n == m
  {
    NatToStringValue(n);
    NatToStringValue(m);
  }

  /** The n-th alternative name: `f"{base}_{n}{ext}"`. */
  function Candidate(dst: string, n: nat): string
  {
    SplitExt(dst).0 + "_" + NatToString(n) + SplitExt(dst).1
  }

  /** Different counters give different names. */
  lemma CandidateInjective(dst: string, n: nat, m: nat)
    requires Candidate(dst, n) == Candidate(dst, m)
    ensures n == m
  {
    var base, ext := SplitExt(dst).0, SplitExt(dst).1;
    var c1, c2 := Candidate(dst, n), Candidate(dst, m);
    var s1, s2 := NatToString(n), NatToString(m);
    assert |s1| == |s2|;
    assert c1 == base + "_" + s1 + ext && c2 == base + "_" + s2 + ext;
    assert s1 == c1[|base| + 1..|base| + 1 + |s1|];
    assert s2 == c2[|base| + 1..|base| + 1 + |s2|];
    NatToStringInjective(n, m);
  }

  /** An alternative name is never the original one: it is longer. */
  lemma CandidateIsNew(dst: string, n: nat)
    ensures Candidate(dst, n) != dst
  {
    assert |Candidate(dst, n)| > |dst|;
  }

  /** The first `k` alternative names. */
  function Candidates(dst: string, k: nat): set<string>
  {
    set j | 1 <= j <= k :: Candidate(dst, j)
  }

  lemma {:induction false} CandidatesCount(dst: string, k: nat)
    ensures |Candidates(dst, k)| == k
  {
    if k > 0 {
      CandidatesCount(dst, k - 1);
      assert Candidates(dst, k) == Candidates(dst, k - 1) + {Candidate(dst, k)};
      if Candidate(dst, k) in Candidates(dst, k - 1) {
        var j :| 1 <= j <= k - 1 && Candidate(dst, j) == Candidate(dst, k);
        CandidateInjective(dst, j, k);
      }
    }
  }

  /** When `dst` and its first `k` alternatives all exist, there are more than `k` paths. */
  lemma TakenBound(dst: string, existing: set<string>, k: nat)
    requires dst in existing
    requires forall j :: 1 <= j <= k ==> Candidate(dst, j) in existing
    ensures k < |existing|
  {
    CandidatesCount(dst, k);
    assert Candidates(dst, k) <= existing;
    forall j | 1 <= j <= k
      ensures Candidate(dst, j) != dst
    {
      CandidateIsNew(dst, j);
    }
    var taken := Candidates(dst, k) + {dst};
    assert |taken| == k + 1;
    assert existing == taken + (existing - taken);
    assert |existing| == |taken| + |existing - taken|;
  }

  /** The suffix loop from counter `k` on, when `dst` and alternatives 1..k-1 all exist. */
  function FirstFree(dst: string, existing: set<string>, k: nat): (n: nat)
    requires dst in existing && k >= 1
    requires forall j :: 1 <= j < k ==> Candidate(dst, j) in existing
    ensures k <= n < |existing| + 1
    ensures Candidate(dst, n) !in existing
    ensures forall j :: k <= j < n ==> Candidate(dst, j) in existing
    decreases |existing| - k
  {
    TakenBound(dst, existing, k - 1);
    if Candidate(dst, k) !in existing then k
    else
      TakenBound(dst, existing, k);
      FirstFree(dst, existing, k + 1)
  }

  /** `ensure_unique_path` against the set of paths that exist. */
  function UniquePath(dst: string, existing: set<string>): (r: string)
  {
    if dst !in existing then dst else Candidate(dst, FirstFree(dst, existing, 1))
  }

  /** The result never exists; a free path is kept; otherwise the result is the alternative
      with the smallest counter n whose path is free, and n is at most the number of
      existing paths. */
  lemma UniquePathSpec(dst: string, existing: set<string>)
    ensures UniquePath(dst, existing) !in existing
    ensures dst !in existing ==> UniquePath(dst, existing) == dst
    ensures dst in existing ==>
              exists n :: 1 <= n <= |existing| && UniquePath(dst, existing) == Candidate(dst, n)
                          && forall j :: 1 <= j < n ==> Candidate(dst, j) in existing
  {
    if dst in existing {
      var n := FirstFree(dst, existing, 1);
      assert UniquePath(dst, existing) == Candidate(dst, n);
    }
  }
}
