/**
 * Ruby's String#succ on texts made only of ASCII letters and digits, and the two
 * sequences the writer draws from it: column letters (A, B, ..., Z, AA, ...) and
 * relationship ids (rId1, rId2, ..., rId9, rIe0, ...).
 */
module Succ {
  import opened Text

  predicate IsLower(c: char) { 'a' <= c <= 'z' }

  predicate IsUpper(c: char) { 'A' <= c <= 'Z' }

  predicate IsAlnum(c: char) { IsDigit(c) || IsLower(c) || IsUpper(c) }

  predicate AllAlnum(s: string) { forall i | 0 <= i < |s| :: IsAlnum(s[i]) }

  /** The last character of a character's class: 9, z or Z. */
  predicate IsLast(c: char)
  {
    c == '9' || c == 'z' || c == 'Z'
  }

  /** The first character of c's class, which a carry leaves behind. */
  function First(c: char): (r: char)
    requires IsAlnum(c)
  {
    if IsDigit(c) then '0' else if IsLower(c) then 'a' else 'A'
  }

  /** The character put in front when the leftmost character carries: "9" becomes "10", "z" "aa", "Z" "AA". */
  function Carried(c: char): (r: char)
    requires IsAlnum(c)
  {
    if IsDigit(c) then '1' else First(c)
  }

  /** c's position within its class. */
  function Digit(c: char): (d: nat)
    requires IsAlnum(c)
  {
    if IsDigit(c) then c as int - '0' as int
    else if IsLower(c) then c as int - 'a' as int
    else c as int - 'A' as int
  }

  /** The size of c's class: 10 for digits, 26 for letters. */
  function Radix(c: char): (r: nat)
    requires IsAlnum(c)
    ensures Digit(c) < r
  {
    if IsDigit(c) then 10 else 26
  }

  /** String#succ: the rightmost character steps on within its class, a class's last character wraps and carries left. */
  function Succ(s: string): (r: string)
    requires |s| > 0 && AllAlnum(s)
    ensures AllAlnum(r)
    ensures |r| == |s| || |r| == |s| + 1
    ensures |r| > 0
    decreases |s|
  {
    var c := s[|s| - 1];
    if !IsLast(c) then s[..|s| - 1] + [(c as int + 1) as char]
    else if |s| == 1 then [Carried(c), First(c)]
    else Succ(s[..|s| - 1]) + [First(c)]
  }

  /** A text read as a mixed-radix numeral, each character in its own class's base. */
  function Value(s: string): nat
    requires AllAlnum(s)
    decreases |s|
  {
    if |s| == 0 then 0 else Value(s[..|s| - 1]) * Radix(s[|s| - 1]) + Digit(s[|s| - 1])
  }

  /** Succ is the successor: it adds one to the numeral, or makes the text longer when every character carries. */
  lemma {:induction false} SuccSteps(s: string)
    requires |s| > 0 && AllAlnum(s)
    ensures |Succ(s)| == |s| + 1 || (|Succ(s)| == |s| && Value(Succ(s)) == Value(s) + 1)
    decreases |s|
  {
    var c := s[|s| - 1];
    var init := s[..|s| - 1];
    var r := Succ(s);
    ValueLast(s);
    if !IsLast(c) {
      var d := (c as int + 1) as char;
      NextInClass(c);
      assert r == init + [d];
      ValueLast(r);
      assert r[..|r| - 1] == init;
    } else if |s| > 1 {
      SuccSteps(init);
      var t := Succ(init);
      assert r == t + [First(c)];
      if |r| == |s| {
        ValueLast(r);
        assert r[..|r| - 1] == t;
        LastInClass(c);
        CarryArithmetic(Value(init), Radix(c));
      }
    }
  }

  /** The value of a non-empty text: the value of all but its last character, shifted, plus the last. */
  lemma ValueLast(s: string)
    requires |s| > 0 && AllAlnum(s)
    ensures Value(s) == Value(s[..|s| - 1]) * Radix(s[|s| - 1]) + Digit(s[|s| - 1])
  {
  }

  /** A character other than its class's last steps to the next one, in the same class. */
  lemma NextInClass(c: char)
    requires IsAlnum(c) && !IsLast(c)
    ensures var d := (c as int + 1) as char; IsAlnum(d) && Radix(d) == Radix(c) && Digit(d) == Digit(c) + 1
  {
  }

  /** The last character of a class is its highest digit, and the class's first is zero. */
  lemma LastInClass(c: char)
    requires IsAlnum(c) && IsLast(c)
    ensures Digit(c) == Radix(c) - 1 && Radix(First(c)) == Radix(c) && Digit(First(c)) == 0
  {
  }

  lemma CarryArithmetic(v: nat, q: nat)
    requires q >= 1
    ensures (v + 1) * q + 0 == (v * q + (q - 1)) + 1
  {
  }

  /** Texts ordered by length, then by value: the order Succ climbs. */
  predicate Below(a: string, b: string)
    requires AllAlnum(a) && AllAlnum(b)
  {
    |a| < |b| || (|a| == |b| && Value(a) < Value(b))
  }

  // ---- column letters ----

  function Letter(d: nat): (c: char)
    requires d < 26
    ensures IsUpper(c)
  {
    (d + 'A' as int) as char
  }

  /** The name of the n-th column (from 1) as bijective base 26 over A..Z. */
  function ColumnName(n: nat): (r: string)
    requires n >= 1
    ensures |r| > 0
    ensures forall i | 0 <= i < |r| :: IsUpper(r[i])
    decreases n
  {
    if n <= 26 then [Letter(n - 1)] else ColumnName((n - 1) / 26) + [Letter((n - 1) % 26)]
  }

  lemma ColumnAlnum(n: nat)
    requires n >= 1
    ensures AllAlnum(ColumnName(n))
  {
    var r := ColumnName(n);
    assert forall i | 0 <= i < |r| :: IsUpper(r[i]);
  }

  /** The number a column name denotes: the inverse of ColumnName. */
  function ColumnNumber(s: string): nat
    requires forall i | 0 <= i < |s| :: IsUpper(s[i])
    decreases |s|
  {
    if |s| == 0 then 0
    else
      assert IsUpper(s[|s| - 1]);
      ColumnNumber(s[..|s| - 1]) * 26 + (s[|s| - 1] as int - 'A' as int) + 1
  }

  lemma {:induction false} ColumnNameRoundTrip(n: nat)
    requires n >= 1
    ensures ColumnNumber(ColumnName(n)) == n
    decreases n
  {
    if n > 26 {
      var r := ColumnName(n);
      assert r[..|r| - 1] == ColumnName((n - 1) / 26);
      ColumnNameRoundTrip((n - 1) / 26);
    }
  }

  /** Distinct columns get distinct names. */
  lemma ColumnNameInjective(m: nat, n: nat)
    requires m >= 1 && n >= 1 && ColumnName(m) == ColumnName(n)
    ensures m == n
  {
    ColumnNameRoundTrip(m);
    ColumnNameRoundTrip(n);
  }

  /** `column.next!` moves from the name of column n to the name of column n + 1: Z to AA, AZ to BA. */
  lemma {:induction false} ColumnSucc(n: nat)
    requires n >= 1
    ensures AllAlnum(ColumnName(n))
    ensures Succ(ColumnName(n)) == ColumnName(n + 1)
    decreases n
  {
    ColumnAlnum(n);
    var s := ColumnName(n);
    if n <= 26 {
    } else {
      var k := (n - 1) / 26;
      assert s[..|s| - 1] == ColumnName(k);
      if (n - 1) % 26 == 25 {
        ColumnSucc(k);
        assert (n + 1 - 1) / 26 == k + 1;
      }
    }
  }

  /** The column letters `column.next!` steps through, from "A" for the first value of a row. */
  function Column(k: nat): (r: string)
    ensures |r| > 0 && AllAlnum(r)
    decreases k
  {
    if k == 0 then "A" else Succ(Column(k - 1))
  }

  /** The k-th value (from 0) of a row is in the column named by k + 1 in bijective base 26. */
  lemma {:induction false} ColumnIsName(k: nat)
    ensures Column(k) == ColumnName(k + 1)
    decreases k
  {
    if k > 0 {
      ColumnIsName(k - 1);
      ColumnSucc(k);
    }
  }

  // ---- relationship ids ----

  /** The i-th relationship id: "rId0" stepped on i times with String#succ. */
  function RelId(i: nat): (r: string)
    ensures |r| >= |"rId0"| && AllAlnum(r)
    decreases i
  {
    if i == 0 then "rId0" else Succ(RelId(i - 1))
  }

  lemma {:induction false} RelIdClimbs(i: nat, j: nat)
    requires i < j
    ensures Below(RelId(i), RelId(j))
    decreases j
  {
    SuccSteps(RelId(j - 1));
    if i < j - 1 {
      RelIdClimbs(i, j - 1);
    }
  }

  /** Every relationship id handed out is new. */
  lemma RelIdInjective(i: nat, j: nat)
    requires i != j
    ensures RelId(i) != RelId(j)
  {
    if i < j {
      RelIdClimbs(i, j);
    } else {
      RelIdClimbs(j, i);
    }
  }

  /** The first nine ids are rId1 to rId9. */
  lemma {:induction false} RelIdSmall(i: nat)
    requires i <= 9
    ensures RelId(i) == "rId" + [DigitChar(i)]
    decreases i
  {
    if i > 0 {
      RelIdSmall(i - 1);
      var p := RelId(i - 1);
      assert p[..|p| - 1] == "rId";
    }
  }

  /** The tenth id is rIe0: the digit carries into the letter before it. */
  lemma RelIdTenth()
    ensures RelId(10) == "rIe0"
  {
    RelIdSmall(9);
    var p := RelId(9);
    assert p[..3] == "rId";
    assert Succ(p[..3]) == "rIe" by {
      var q := p[..3];
      assert q[..2] == "rI";
    }
  }
}
