/** String operations of the source: search, whitespace and trimming. */
module Strings {
  import opened Wrappers

  predicate StartsAt(s: string, i: nat, pattern: string) {
    i + |pattern| <= |s| && s[i..i + |pattern|] == pattern
  }

  /** The first occurrence of `pattern` at or after `from`. */
  function Find(s: string, pattern: string, from: nat): (found: Option<nat>)
    ensures found.Some? ==> from <= found.value && StartsAt(s, found.value, pattern)
    decreases if from <= |s| then |s| - from + 1 else 0
  {
    if from > |s| then None
    else if StartsAt(s, from, pattern) then Some(from)
    else Find(s, pattern, from + 1)
  }

  lemma {:induction false} FindIsFirst(s: string, pattern: string, from: nat)
    ensures forall i: nat :: from <= i && (Find(s, pattern, from).Some? ==> i < Find(s, pattern, from).value) ==>
              !StartsAt(s, i, pattern)
    decreases if from <= |s| then |s| - from + 1 else 0
  {
    if from <= |s| && !StartsAt(s, from, pattern) {
      FindIsFirst(s, pattern, from + 1);
    }
  }

  lemma {:induction false} FindIs(s: string, pattern: string, from: nat, i: nat)
    requires from <= i && StartsAt(s, i, pattern)
    requires forall k: nat :: from <= k < i ==> !StartsAt(s, k, pattern)
    ensures Find(s, pattern, from) == Some(i)
  {
    FindIsFirst(s, pattern, from);
  }

  lemma StartsAtInPrefix(x: string, y: string, k: nat, pattern: string)
    requires k + |pattern| <= |x|
    ensures StartsAt(x + y, k, pattern) <==> StartsAt(x, k, pattern)
  {
    assert (x + y)[k..k + |pattern|] == x[k..k + |pattern|];
  }

  lemma StartsAtInSuffix(x: string, y: string, k: nat, pattern: string)
    ensures StartsAt(x + y, |x| + k, pattern) <==> StartsAt(y, k, pattern)
  {
    if k + |pattern| <= |y| {
      assert (x + y)[|x| + k..|x| + k + |pattern|] == y[k..k + |pattern|];
    }
  }

  lemma StartsAtInMiddle(x: string, y: string, z: string, k: nat, pattern: string)
    requires k + |pattern| <= |y|
    ensures StartsAt(x + y + z, |x| + k, pattern) <==> StartsAt(y, k, pattern)
  {
    StartsAtInPrefix(x + y, z, |x| + k, pattern);
    StartsAtInSuffix(x, y, k, pattern);
  }

  lemma {:induction false} FindInFront(x: string, y: string, pattern: string, n: nat)
    requires Find(x, pattern, 0) == Some(n)
    ensures Find(x + y, pattern, 0) == Some(n)
  {
    FindIsFirst(x, pattern, 0);
    forall k: nat | k <= n
      ensures StartsAt(x + y, k, pattern) <==> StartsAt(x, k, pattern)
    {
      StartsAtInPrefix(x, y, k, pattern);
    }
    FindIs(x + y, pattern, 0, n);
  }

  lemma {:induction false} FindInMiddle(x: string, y: string, z: string, pattern: string, n: nat)
    requires Find(y, pattern, 0) == Some(n)
    ensures Find(x + y + z, pattern, |x|) == Some(|x| + n)
  {
    var s := x + y + z;
    FindIsFirst(y, pattern, 0);
    forall k: nat | |x| <= k <= |x| + n
      ensures StartsAt(s, k, pattern) <==> k == |x| + n
    {
      assert StartsAt(y, k - |x|, pattern) <==> k == |x| + n;
      StartsAtInMiddle(x, y, z, k - |x|, pattern);
    }
    FindIs(s, pattern, |x|, |x| + n);
  }

  lemma {:induction false} FindFromEarlier(s: string, pattern: string, from: nat, later: nat)
    requires from <= later && Find(s, pattern, later).Some?
    requires forall k: nat :: from <= k < later ==> !StartsAt(s, k, pattern)
    ensures Find(s, pattern, from) == Find(s, pattern, later)
  {
    FindIsFirst(s, pattern, later);
    FindIs(s, pattern, from, Find(s, pattern, later).value);
  }

  lemma CharAt(s: string, i: nat, pattern: string, k: nat)
    requires StartsAt(s, i, pattern) && k < |pattern|
    ensures s[i + k] == pattern[k]
  {
    assert s[i + k] == s[i..i + |pattern|][k];
  }

  lemma StartsAtInSlice(s: string, a: nat, b: nat, k: nat, pattern: string)
    requires a <= b <= |s| && StartsAt(s[a..b], k, pattern)
    ensures StartsAt(s, a + k, pattern)
  {
    StartsAtInMiddle(s[..a], s[a..b], s[b..], k, pattern);
    assert s[..a] + s[a..b] + s[b..] == s;
  }

  /** Unicode White_Space. */
  predicate IsWhitespace(c: char) {
    var n := c as int;
    || 0x09 <= n <= 0x0D || n == 0x20 || n == 0x85 || n == 0xA0 || n == 0x1680 || 0x2000 <= n <= 0x200A
    || n == 0x2028 || n == 0x2029 || n == 0x202F || n == 0x205F || n == 0x3000
  }

  function TrimStart(s: string): string {
    if s != "" && IsWhitespace(s[0]) then TrimStart(s[1..]) else s
  }

  function TrimEnd(s: string): string {
    if s != "" && IsWhitespace(s[|s| - 1]) then TrimEnd(s[..|s| - 1]) else s
  }

  function Trim(s: string): string {
    TrimEnd(TrimStart(s))
  }

  /** Neither end is whitespace. */
  predicate Trimmed(s: string) {
    s == "" || (!IsWhitespace(s[0]) && !IsWhitespace(s[|s| - 1]))
  }

  lemma {:induction false} TrimStartIsSuffix(s: string) returns (a: nat)
    ensures a <= |s| && TrimStart(s) == s[a..]
    ensures TrimStart(s) == "" || !IsWhitespace(TrimStart(s)[0])
    ensures forall i :: 0 <= i < a ==> IsWhitespace(s[i])
  {
    if s != "" && IsWhitespace(s[0]) {
      a := TrimStartIsSuffix(s[1..]);
      assert forall i :: 0 < i < a + 1 ==> s[i] == s[1..][i - 1];
      a := a + 1;
    } else {
      a := 0;
    }
  }

  lemma {:induction false} TrimEndIsPrefix(s: string)
    ensures TrimEnd(s) <= s
    ensures TrimEnd(s) == "" || !IsWhitespace(TrimEnd(s)[|TrimEnd(s)| - 1])
    ensures forall i :: |TrimEnd(s)| <= i < |s| ==> IsWhitespace(s[i])
  {
    if s != "" && IsWhitespace(s[|s| - 1]) {
      TrimEndIsPrefix(s[..|s| - 1]);
    }
  }

  /** Trimming takes a slice that is trimmed, and cuts nothing but whitespace. */
  lemma TrimMeaning(s: string) returns (a: nat, b: nat)
    ensures a <= b <= |s| && Trim(s) == s[a..b]
    ensures Trimmed(Trim(s))
    ensures forall i :: 0 <= i < a || b <= i < |s| ==> IsWhitespace(s[i])
  {
    a := TrimStartIsSuffix(s);
    TrimEndIsPrefix(TrimStart(s));
    b := a + |Trim(s)|;
    assert forall i :: b <= i < |s| ==> s[i] == TrimStart(s)[i - a];
  }

  lemma TrimTrimmed(s: string)
    requires Trimmed(s)
    ensures Trim(s) == s
  {
  }
}
