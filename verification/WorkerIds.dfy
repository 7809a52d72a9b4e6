/**
 Worker names: the pool prefix, a dash, and an instance number or a time
 stamp. The gateway and the pool manager both recover the prefix by cutting at
 the last dash that only digits follow.
 */
module WorkerIds {

  const DASH: char := '-'

  predicate IsDigit(c: char) {
    '0' <= c <= '9'
  }

  predicate AllDigits(s: string) {
    forall i :: 0 <= i < |s| ==> IsDigit(s[i])
  }

  // ---- Printing numbers ----

  function DigitOf(d: nat): char
    requires d < 10
  {
    (d as char) + '0'
  }

  /** The decimal digits of n, without any for zero. */
  function Digits(n: nat): string {
    if n == 0 then "" else Digits(n / 10) + [DigitOf(n % 10)]
  }

  /** The number that a string of digits stands for. */
  function ValueOf(s: string): nat
    requires AllDigits(s)
  {
    if s == "" then 0 else 10 * ValueOf(s[..|s| - 1]) + (s[|s| - 1] as int - '0' as int)
  }

  function Decimal(n: int): string {
    if n == 0 then "0" else if n > 0 then Digits(n) else ""
  }

  method Itoa(number: int) returns (result: string)
    ensures result == Decimal(number)
  {
    if number == 0 {
      return "0";
    }
    var n := number;
    result := "";
    while n > 0
      invariant n >= 0 || n == number
      invariant n > 0 ==> number > 0
      invariant number > 0 ==> n >= 0 && Digits(n) + result == Digits(number)
      invariant number < 0 ==> result == "" && n == number
    {
      assert Digits(n / 10) + ([DigitOf(n % 10)] + result) == Digits(n) + result;
      result := [DigitOf(n % 10)] + result;
      n := n / 10;
    }
  }

  /** Reading the digits of a number gives the number back, so different numbers print differently. */
  lemma {:induction false} ValueOfDigits(n: nat)
    ensures AllDigits(Digits(n)) && ValueOf(Digits(n)) == n
  {
    if n > 0 {
      ValueOfDigits(n / 10);
      var front, d := Digits(n / 10), DigitOf(n % 10);
      assert (front + [d])[..|front|] == front;
    }
  }

  lemma DecimalIsReadable(n: nat)
    ensures AllDigits(Decimal(n)) && ValueOf(Decimal(n)) == n
  {
    ValueOfDigits(n);
    if n == 0 {
      assert "0"[..0] == "";
    }
  }

  lemma DecimalInjective(m: nat, n: nat)
    ensures Decimal(m) == Decimal(n) ==> m == n
  {
    DecimalIsReadable(m);
    DecimalIsReadable(n);
  }

  // ---- Cutting names ----

  /** A place to cut: a dash, not at the start, that only digits follow. */
  predicate IsCut(id: string, i: int) {
    0 < i < |id| && id[i] == DASH && AllDigits(id[i + 1..])
  }

  lemma OnlyDigitsAfterCut(id: string, i: int)
    requires IsCut(id, i)
    ensures forall k :: i < k < |id| ==> IsDigit(id[k])
  {
    forall k | i < k < |id|
      ensures IsDigit(id[k])
    {
      assert id[k] == id[i + 1..][k - i - 1];
    }
  }

  lemma CutIsUnique(id: string, i: int, j: int)
    requires IsCut(id, i) && IsCut(id, j)
    ensures i == j
  {
    OnlyDigitsAfterCut(id, i);
    OnlyDigitsAfterCut(id, j);
  }

  ghost function PrefixOf(id: string): string {
    if exists i :: IsCut(id, i) then (var i :| IsCut(id, i); id[..i]) else id
  }

  lemma PrefixOfCut(id: string, i: int)
    requires IsCut(id, i)
    ensures PrefixOf(id) == id[..i]
  {
    var j :| IsCut(id, j) && PrefixOf(id) == id[..j];
    CutIsUnique(id, i, j);
  }

  method ExtractPrefix(workerID: string) returns (prefix: string)
    ensures prefix == PrefixOf(workerID)
  {
    var i := |workerID| - 1;
    while i >= 0
      invariant -1 <= i < |workerID|
      invariant forall k :: i < k < |workerID| ==> !IsCut(workerID, k)
    {
      if workerID[i] == DASH {
        var isNum := true;
        var j := i + 1;
        while j < |workerID|
          invariant i + 1 <= j <= |workerID|
          invariant isNum && forall k :: i < k < j ==> IsDigit(workerID[k])
        {
          if !IsDigit(workerID[j]) {
            isNum := false;
            assert !AllDigits(workerID[i + 1..]) by { assert workerID[i + 1..][j - i - 1] == workerID[j]; }
            break;
          }
          j := j + 1;
        }
        if isNum && i > 0 {
          PrefixOfCut(workerID, i);
          return workerID[..i];
        }
      }
      i := i - 1;
    }
    prefix := workerID;
  }

  // ---- Names of spawned workers ----

  function Suffixed(prefix: string, suffix: string): string {
    prefix + "-" + suffix
  }

  /** The name of instance i of a pool; the first one has the bare prefix. */
  function InstanceId(prefix: string, i: nat): string {
    if i == 0 then prefix else Suffixed(prefix, Decimal(i))
  }

  /** The names of a pool's instances are pairwise distinct. */
  lemma InstanceIdsDistinct(prefix: string, i: nat, j: nat)
    ensures InstanceId(prefix, i) == InstanceId(prefix, j) ==> i == j
  {
    DecimalInjective(i, j);
    if InstanceId(prefix, i) == InstanceId(prefix, j) && i > 0 && j > 0 {
      assert Suffixed(prefix, Decimal(i))[|prefix| + 1..] == Decimal(i);
      assert Suffixed(prefix, Decimal(j))[|prefix| + 1..] == Decimal(j);
    }
    assert i > 0 ==> |InstanceId(prefix, i)| > |prefix|;
    assert j > 0 ==> |InstanceId(prefix, j)| > |prefix|;
  }

  /** The prefix of a suffixed name is recovered exactly when the prefix is not empty and the suffix is a number. */
  lemma PrefixRecoveredExactlyForNumbers(prefix: string, suffix: string)
    ensures PrefixOf(Suffixed(prefix, suffix)) == prefix <==> prefix != "" && AllDigits(suffix)
  {
    var id := Suffixed(prefix, suffix);
    assert id[|prefix|] == DASH && id[|prefix| + 1..] == suffix && id[..|prefix|] == prefix;
    if prefix != "" && AllDigits(suffix) {
      PrefixOfCut(id, |prefix|);
    } else if i :| IsCut(id, i) {
      PrefixOfCut(id, i);
      assert |id[..i]| == i;
      assert i == |prefix| ==> prefix != "" && AllDigits(suffix);
    }
  }

  /** Every numbered instance is found under its own prefix; the bare prefix is, unless it looks numbered itself. */
  lemma InstanceBelongsToPrefix(prefix: string, i: nat)
    requires prefix != ""
    ensures i > 0 ==> PrefixOf(InstanceId(prefix, i)) == prefix
    ensures PrefixOf(InstanceId(prefix, 0)) == prefix <==> forall k :: !IsCut(prefix, k)
  {
    DecimalIsReadable(i);
    PrefixRecoveredExactlyForNumbers(prefix, Decimal(i));
    if k :| IsCut(prefix, k) {
      PrefixOfCut(prefix, k);
    }
  }

  /**
   A replacement's name ends in a time stamp with a fraction, such as
   20060102-150405.000. It is its own prefix: no pool name is recovered from it.
   */
  lemma ReplacementIsItsOwnPrefix(prefix: string, seconds: string, fraction: string)
    requires DASH !in fraction
    ensures var id := Suffixed(prefix, seconds + "." + fraction);
            PrefixOf(id) == id
  {
    var id := Suffixed(prefix, seconds + "." + fraction);
    var dot := |prefix| + 1 + |seconds|;
    assert id[dot] == '.' && id[dot + 1..] == fraction;
    forall i
      ensures !IsCut(id, i)
    {
      if 0 < i < dot {
        assert id[i + 1..][dot - i - 1] == id[dot];
      } else if dot < i < |id| {
        assert id[i] == fraction[i - dot - 1] && fraction[i - dot - 1] in fraction;
      }
    }
  }

  // ---- Names in letters ----

  /** A number is printed by its digits, highest first. */
  lemma DecimalInLetters(n: nat, d: nat)
    requires d < 10
    ensures Decimal(d) == ["0123456789"[d]]
    ensures n > 0 ==> Decimal(10 * n + d) == Decimal(n) + ["0123456789"[d]]
  {
    assert DigitOf(d) == "0123456789"[d];
    assert Digits(0) == "";
    if n > 0 {
      assert (10 * n + d) / 10 == n && (10 * n + d) % 10 == d;
    } else if d > 0 {
      assert d / 10 == 0 && Digits(d) == Digits(0) + [DigitOf(d)];
    }
  }

  /** The first instance has the pool's name, the others a dash and their number after it. */
  lemma InstancesInLetters(prefix: string, i: nat)
    ensures InstanceId(prefix, 0) == prefix
    ensures i > 0 ==> InstanceId(prefix, i) == prefix + "-" + Decimal(i)
  {
  }

  /** A name is cut at its last dash, if that is not its first letter and only digits follow; other names are not cut. */
  lemma PrefixInLetters(id: string, i: nat)
    ensures 0 < i < |id| && id[i] == '-' && (forall k :: i < k < |id| ==> '0' <= id[k] <= '9') ==> PrefixOf(id) == id[..i]
    ensures (forall j :: 0 < j < |id| && id[j] == '-' ==> exists k :: j < k < |id| && !('0' <= id[k] <= '9')) ==>
              PrefixOf(id) == id
  {
    if 0 < i < |id| && id[i] == '-' && forall k :: i < k < |id| ==> '0' <= id[k] <= '9' {
      assert IsCut(id, i);
      PrefixOfCut(id, i);
    }
    if (forall j :: 0 < j < |id| && id[j] == '-' ==> exists k :: j < k < |id| && !('0' <= id[k] <= '9')) && exists j :: IsCut(id, j) {
      var j :| IsCut(id, j);
      OnlyDigitsAfterCut(id, j);
    }
  }
}
