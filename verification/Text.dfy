/** The string operations the topic and digest code uses, on ASCII text. */
module Text {
  import opened Bytes

  predicate IsDigit(c: char) { '0' <= c <= '9' }

  predicate IsHex(c: char) { IsDigit(c) || 'a' <= c <= 'f' || 'A' <= c <= 'F' }

  predicate AllDigits(s: string) { forall i :: 0 <= i < |s| ==> IsDigit(s[i]) }

  predicate AllHex(s: string) { forall i :: 0 <= i < |s| ==> IsHex(s[i]) }

  // ---------- lower case and white space ----------

  function LowerChar(c: char): char {
    if 'A' <= c <= 'Z' then (c as int + 32) as char else c
  }

  function ToLower(s: string): (r: string)
    ensures |r| == |s|
    ensures forall i :: 0 <= i < |s| ==> r[i] == LowerChar(s[i])
  {
    if s == "" then "" else [LowerChar(s[0])] + ToLower(s[1..])
  }

  predicate IsSpace(c: char) { c in {' ', '\t', '\n', '\r', 11 as char, 12 as char} }

  function TrimLeft(s: string): (r: string)
    ensures r == "" || !IsSpace(r[0])
    ensures |r| <= |s| && r == s[|s| - |r|..]
    ensures forall i :: 0 <= i < |s| - |r| ==> IsSpace(s[i])
  {
    if s != "" && IsSpace(s[0]) then TrimLeft(s[1..]) else s
  }

  function TrimRight(s: string): (r: string)
    ensures r == "" || !IsSpace(r[|r| - 1])
    ensures r <= s
    ensures forall i :: |r| <= i < |s| ==> IsSpace(s[i])
  {
    if s != "" && IsSpace(s[|s| - 1]) then TrimRight(s[..|s| - 1]) else s
  }

  function TrimSpace(s: string): string { TrimRight(TrimLeft(s)) }

  /** Trimming takes blanks off both ends, all of them and nothing else. */
  lemma TrimSpaceExactly(s: string, before: string, r: string, after: string)
    requires s == before + r + after
    requires (forall c :: c in before + after ==> IsSpace(c)) && (r == "" || (!IsSpace(r[0]) && !IsSpace(r[|r| - 1])))
    ensures TrimSpace(s) == r
  {
    TrimLeftIs(before, r + after);
    assert s == before + (r + after);
    if r != "" {
      assert (r + after)[0] == r[0];
      TrimRightIs(r, after);
    }
  }

  lemma {:induction false} TrimLeftIs(before: string, rest: string)
    requires forall c :: c in before ==> IsSpace(c)
    ensures rest != "" && !IsSpace(rest[0]) ==> TrimLeft(before + rest) == rest
  {
    if before == "" {
      assert before + rest == rest;
    } else {
      assert (before + rest)[0] == before[0] && (before + rest)[1..] == before[1..] + rest;
      assert before == [before[0]] + before[1..];
      TrimLeftIs(before[1..], rest);
    }
  }

  lemma {:induction false} TrimRightIs(r: string, after: string)
    requires r != "" && !IsSpace(r[|r| - 1]) && forall c :: c in after ==> IsSpace(c)
    ensures TrimRight(r + after) == r
    decreases |after|
  {
    if after == "" {
      assert r + after == r;
    } else {
      var n := |after| - 1;
      assert (r + after)[..|r + after| - 1] == r + after[..n] && (r + after)[|r + after| - 1] == after[n];
      assert after == after[..n] + [after[n]];
      TrimRightIs(r, after[..n]);
    }
  }

  lemma TrimSpaceIdle(s: string)
    requires s == "" || (!IsSpace(s[0]) && !IsSpace(s[|s| - 1]))
    ensures TrimSpace(s) == s
  {
  }

  lemma LowerIdempotent(s: string)
    ensures ToLower(ToLower(s)) == ToLower(s)
  {
    assert forall i :: 0 <= i < |s| ==> LowerChar(LowerChar(s[i])) == LowerChar(s[i]);
  }

  lemma LowerKeepsSpaces(c: char)
    ensures IsSpace(LowerChar(c)) == IsSpace(c)
  {
  }

  lemma TrimmedEnds(s: string)
    ensures var r := TrimSpace(s); r == "" || (!IsSpace(r[0]) && !IsSpace(r[|r| - 1]))
  {
    var r := TrimSpace(s);
    if r != "" {
      assert r <= TrimLeft(s) && r[0] == TrimLeft(s)[0];
    }
  }

  // ---------- searching ----------

  predicate OccursAt(s: string, sub: string, i: nat) {
    i + |sub| <= |s| && s[i..i + |sub|] == sub
  }

  predicate Contains(s: string, sub: string) {
    exists i | 0 <= i <= |s| :: OccursAt(s, sub, i)
  }

  lemma FoundAt(s: string, sub: string, i: nat)
    requires OccursAt(s, sub, i)
    ensures Contains(s, sub)
  {
  }

  lemma MissingChar(s: string, sub: string, c: char)
    requires c in sub && c !in s
    ensures !Contains(s, sub)
  {
    var j :| 0 <= j < |sub| && sub[j] == c;
    forall i | 0 <= i <= |s|
      ensures !OccursAt(s, sub, i)
    {
      assert i + |sub| <= |s| ==> s[i..i + |sub|][j] == s[i + j];
    }
  }

  /** The last place of `c`, or -1. */
  function LastIndex(s: string, c: char): (r: int)
    ensures -1 <= r < |s|
  {
    if s == "" then -1
    else if s[|s| - 1] == c then |s| - 1
    else LastIndex(s[..|s| - 1], c)
  }

  lemma {:induction false} LastIndexIs(s: string, c: char, i: nat)
    requires i < |s| && s[i] == c && forall j :: i < j < |s| ==> s[j] != c
    ensures LastIndex(s, c) == i
  {
    if i < |s| - 1 {
      LastIndexIs(s[..|s| - 1], c, i);
    }
  }

  lemma {:induction false} LastIndexFound(s: string, c: char)
    ensures var i := LastIndex(s, c);
            && (i >= 0 ==> s[i] == c) && forall j :: i < j < |s| ==> s[j] != c
  {
    if s != "" && s[|s| - 1] != c {
      LastIndexFound(s[..|s| - 1], c);
      assert forall j :: 0 <= j < |s| - 1 ==> s[..|s| - 1][j] == s[j];
    }
  }

  // ---------- decimal numbers ----------

  function Decimal(n: nat): (s: string)
    ensures s != ""
  {
    if n < 10 then [('0' as int + n) as char] else Decimal(n / 10) + [('0' as int + n % 10) as char]
  }

  /** Numbers below 100 as they are written. */
  lemma ShortDecimal(n: nat)
    requires n < 100
    ensures var digits := "0123456789";
            Decimal(n) == if n < 10 then [digits[n]] else [digits[n / 10], digits[n % 10]]
  {
  }

  function Value(s: string): nat
    requires AllDigits(s)
  {
    if s == "" then 0 else 10 * Value(s[..|s| - 1]) + (s[|s| - 1] as int - '0' as int)
  }

  /** strconv.ParseUint in base 10 for 64 bits. */
  function ParseUint(s: string): Option<nat> {
    if s != "" && AllDigits(s) && Value(s) < TWO64 then Some(Value(s)) else None
  }

  lemma {:induction false} ValueOfDecimal(n: nat)
    ensures AllDigits(Decimal(n)) && Value(Decimal(n)) == n
  {
    if n >= 10 {
      ValueOfDecimal(n / 10);
      assert Decimal(n)[..|Decimal(n)| - 1] == Decimal(n / 10);
    }
  }
}
