/** The PHP string functions the core relies on, over `seq<char>`.  `ucfirst` and
    `lcfirst` change only the ASCII letters, as PHP 8 does. */
module PhpString {

  /** `empty($s)` for a string value: true for "" and for "0". */
  predicate Empty(s: string) {
    s == "" || s == "0"
  }

  /** `str_starts_with($s, $p)` */
  predicate StartsWith(s: string, p: string) {
    |p| <= |s| && s[..|p|] == p
  }

  /** `k` occurs in `s` starting at index `i`. */
  predicate OccursAt(s: string, k: string, i: int) {
    0 <= i <= |s| - |k| && s[i..i + |k|] == k
  }

  /** `str_contains($s, $k)` */
  predicate Contains(s: string, k: string) {
    exists i :: 0 <= i <= |s| && OccursAt(s, k, i)
  }

  predicate IsUpper(c: char) { 'A' <= c <= 'Z' }

  predicate IsLower(c: char) { 'a' <= c <= 'z' }

  /** ASCII upper-casing: a lower-case letter becomes the same letter of the
      alphabet in upper case; every other character is kept. */
  function ToUpper(c: char): (u: char)
    ensures IsLower(c) ==> IsUpper(u) && u as int - 'A' as int == c as int - 'a' as int
    ensures !IsLower(c) ==> u == c
  {
    if IsLower(c) then (c as int - 32) as char else c
  }

  /** ASCII lower-casing, the mirror of `ToUpper`. */
  function ToLower(c: char): (l: char)
    ensures IsUpper(c) ==> IsLower(l) && l as int - 'a' as int == c as int - 'A' as int
    ensures !IsUpper(c) ==> l == c
  {
    if IsUpper(c) then (c as int + 32) as char else c
  }

  /** Upper- and lower-casing undo each other on letters. */
  lemma CaseInverse(c: char)
    ensures IsLower(c) ==> ToLower(ToUpper(c)) == c
    ensures IsUpper(c) ==> ToUpper(ToLower(c)) == c
  {
  }

  /** `ucfirst($s)` */
  function Ucfirst(s: string): (r: string)
    ensures |r| == |s|
    ensures s != "" ==> r[0] == ToUpper(s[0]) && r[1..] == s[1..]
  {
    if s == "" then "" else [ToUpper(s[0])] + s[1..]
  }

  lemma UcfirstCons(c: char, rest: string)
    ensures Ucfirst([c] + rest) == [ToUpper(c)] + rest
  {
    assert ([c] + rest)[1..] == rest;
  }

  /** `lcfirst($s)` */
  function Lcfirst(s: string): (r: string)
    ensures |r| == |s|
    ensures s != "" ==> r[0] == ToLower(s[0]) && r[1..] == s[1..]
  {
    if s == "" then "" else [ToLower(s[0])] + s[1..]
  }

  /** `lcfirst` undoes `ucfirst` exactly when the string does not already start with
      an upper-case letter. */
  lemma LcfirstUcfirst(t: string)
    ensures Lcfirst(Ucfirst(t)) == t <==> t == "" || !IsUpper(t[0])
  {
    if t != "" {
      assert Lcfirst(Ucfirst(t))[0] == ToLower(ToUpper(t[0]));
      if !IsUpper(t[0]) {
        assert Lcfirst(Ucfirst(t)) == [t[0]] + t[1..];
      }
    }
  }

  /** `ucfirst` undoes `lcfirst` exactly when the string does not already start with
      a lower-case letter. */
  lemma UcfirstLcfirst(t: string)
    ensures Ucfirst(Lcfirst(t)) == t <==> t == "" || !IsLower(t[0])
  {
    if t != "" {
      assert Ucfirst(Lcfirst(t))[0] == ToUpper(ToLower(t[0]));
      if !IsLower(t[0]) {
        assert Ucfirst(Lcfirst(t)) == [t[0]] + t[1..];
      }
    }
  }

  /** `ucfirst` never leaves a lower-case first letter, so applying it twice changes
      nothing more. */
  lemma UcfirstIdempotent(t: string)
    ensures Ucfirst(t) == "" || !IsLower(Ucfirst(t)[0])
    ensures Ucfirst(Ucfirst(t)) == Ucfirst(t)
  {
    if t != "" {
      assert Ucfirst(Ucfirst(t)) == [Ucfirst(t)[0]] + Ucfirst(t)[1..];
    }
  }

  /** On strings that do not start upper-case, `ucfirst` is one-to-one. */
  lemma UcfirstInjective(t: string, u: string)
    requires t == "" || !IsUpper(t[0])
    requires u == "" || !IsUpper(u[0])
    requires Ucfirst(t) == Ucfirst(u)
    ensures t == u
  {
    LcfirstUcfirst(t);
    LcfirstUcfirst(u);
  }

  /** `strtr($s, [$k => $v])`: scanning left to right, every occurrence of `k` is
      replaced by `v`, and replaced text is not scanned again. */
  function ReplaceAll(s: string, k: string, v: string): string
    requires k != ""
    decreases |s|
  {
    if |s| < |k| then s
    else if s[..|k|] == k then v + ReplaceAll(s[|k|..], k, v)
    else [s[0]] + ReplaceAll(s[1..], k, v)
  }

  /** Without an occurrence of `k`, `strtr` leaves the string as it is. */
  lemma {:induction false} ReplaceAllNoOccurrence(s: string, k: string, v: string)
    requires k != "" && !Contains(s, k)
    ensures ReplaceAll(s, k, v) == s
    decreases |s|
  {
    if |s| >= |k| {
      assert !OccursAt(s, k, 0);
      assert s[0..0 + |k|] == s[..|k|];
      assert !Contains(s[1..], k) by {
        forall i | 0 <= i <= |s[1..]| - |k| ensures !OccursAt(s[1..], k, i) {
          assert s[1..][i..i + |k|] == s[i + 1..i + 1 + |k|];
          assert !OccursAt(s, k, i + 1);
        }
      }
      ReplaceAllNoOccurrence(s[1..], k, v);
      assert [s[0]] + s[1..] == s;
    }
  }

  /** The first occurrence of `k` after a prefix that holds none of `k`'s first
      character is replaced, and the scan goes on after it. */
  lemma {:induction false} ReplaceAllAfterPrefix(a: string, k: string, b: string, v: string)
    requires k != ""
    requires forall i :: 0 <= i < |a| ==> a[i] != k[0]
    ensures ReplaceAll(a + k + b, k, v) == a + v + ReplaceAll(b, k, v)
    decreases |a|
  {
    var s := a + k + b;
    if a == [] {
      assert s == k + b && s[..|k|] == k && s[|k|..] == b;
    } else {
      assert s[0] == a[0] && s[..|k|][0] == s[0];
      assert s[1..] == a[1..] + k + b;
      ReplaceAllAfterPrefix(a[1..], k, b, v);
      assert a + v + ReplaceAll(b, k, v) == [a[0]] + (a[1..] + v + ReplaceAll(b, k, v));
    }
  }

  /** Replacing `k` by itself changes nothing. */
  lemma {:induction false} ReplaceAllIdentity(s: string, k: string)
    requires k != ""
    ensures ReplaceAll(s, k, k) == s
    decreases |s|
  {
    if |s| >= |k| {
      if s[..|k|] == k {
        ReplaceAllIdentity(s[|k|..], k);
        assert s == s[..|k|] + s[|k|..];
      } else {
        ReplaceAllIdentity(s[1..], k);
        assert s == [s[0]] + s[1..];
      }
    }
  }
  /** Where `k` occurs, the result of `strtr` contains the replacement. */
  lemma {:induction false} ReplaceAllKeepsValue(s: string, k: string, v: string)
    requires k != "" && Contains(s, k)
    ensures Contains(ReplaceAll(s, k, v), v)
    decreases |s|
  {
    var i :| 0 <= i <= |s| && OccursAt(s, k, i);
    var r := ReplaceAll(s, k, v);
    if s[..|k|] == k {
      assert r == v + ReplaceAll(s[|k|..], k, v);
      assert r[0..|v|] == v;
      assert OccursAt(r, v, 0);
    } else {
      assert i > 0 by { assert s[0..|k|] == s[..|k|]; }
      assert OccursAt(s[1..], k, i - 1) by { assert s[1..][i - 1..i - 1 + |k|] == s[i..i + |k|]; }
      ReplaceAllKeepsValue(s[1..], k, v);
      var rest := ReplaceAll(s[1..], k, v);
      var j :| 0 <= j <= |rest| && OccursAt(rest, v, j);
      assert r == [s[0]] + rest;
      assert r[j + 1..j + 1 + |v|] == rest[j..j + |v|];
      assert OccursAt(r, v, j + 1);
    }
  }
}
