/** The Dewey bucket resolver of the book controller: a parsed DDC number is
    mapped to one of the ten hundred-wide main classes of the Dewey Decimal
    Classification's first summary ("000-099" ... "900-999"). The number is
    what `parseFloat` made of the stored `ddc` string; an unparseable string
    (`NaN`) is `None`. Values are exact reals. */
module Classification {
  import opened Wrappers
  import opened Text

  /** The ten bucket labels, in ascending order; `Labels[k]` covers [100k, 100k + 100). */
  const Labels: seq<string> := [
    "000-099", "100-199", "200-299", "300-399", "400-499",
    "500-599", "600-699", "700-799", "800-899", "900-999"
  ]

  /** The label every value outside [0, 1000), and `NaN`, falls back to. */
  const DefaultLabel: string := "000-099"

  function DigitChar(d: nat): (c: char)
    requires d <= 9
    ensures IsDigit(c) && DigitValue(c) == d
  {
    (('0' as int) + d) as char
  }

  /** The label of main class k spelled out independently of `Labels`: "k00-k99". */
  function BucketLabel(k: nat): (r: string)
    requires k <= 9
    ensures |r| == 7 && r[0] == DigitChar(k) && r[3] == '-'
  {
    [DigitChar(k), '0', '0', '-', DigitChar(k), '9', '9']
  }

  lemma LabelsAreBucketLabels()
    ensures |Labels| == 10
    ensures forall k :: 0 <= k < 10 ==> Labels[k] == BucketLabel(k)
  {
    forall k | 0 <= k < 10 ensures Labels[k] == BucketLabel(k) {
      assert BucketLabel(k) == [DigitChar(k), '0', '0', '-', DigitChar(k), '9', '9'];
    }
  }

  /** getDeweyCategory: a chain of half-open range tests with a total fallback. */
  function GetDeweyCategory(ddcNum: Option<real>): (bucket: string)
    ensures bucket in Labels
  {
    match ddcNum
    case None => "000-099"
    case Some(n) =>
      if n >= 0.0 && n < 100.0 then "000-099"
      else if n >= 100.0 && n < 200.0 then "100-199"
      else if n >= 200.0 && n < 300.0 then "200-299"
      else if n >= 300.0 && n < 400.0 then "300-399"
      else if n >= 400.0 && n < 500.0 then "400-499"
      else if n >= 500.0 && n < 600.0 then "500-599"
      else if n >= 600.0 && n < 700.0 then "600-699"
      else if n >= 700.0 && n < 800.0 then "700-799"
      else if n >= 800.0 && n < 900.0 then "800-899"
      else if n >= 900.0 && n < 1000.0 then "900-999"
      else "000-099"
  }

  /** Every value in [0, 1000) lands in the bucket of its hundreds: value v
      with 100k <= v < 100k + 100 gets the k-th label, boundaries going up. */
  lemma ResolvesByHundreds(n: real)
    requires 0.0 <= n < 1000.0
    ensures 0 <= n.Floor / 100 < 10
    ensures GetDeweyCategory(Some(n)) == Labels[n.Floor / 100]
  {
    var f := n.Floor;
    assert f as real <= n < f as real + 1.0;
    assert 0 <= f < 1000;
    var k := f / 100;
    assert 100 * k <= f < 100 * k + 100;
    assert (100 * k) as real <= n < (100 * k + 100) as real;
    assert 0 <= k < 10;
  }

  /** Negative values and values of 1000 and above fall through to the default. */
  lemma FallbackOutsideRange(n: real)
    requires n < 0.0 || n >= 1000.0
    ensures GetDeweyCategory(Some(n)) == DefaultLabel
  {
  }

  /** The ten labels are pairwise different. */
  lemma LabelsDistinct(j: nat, k: nat)
    requires j < 10 && k < 10
    ensures Labels[j] == Labels[k] <==> j == k
  {
    LabelsAreBucketLabels();
    if j != k {
      assert Labels[j][0] == DigitChar(j) != DigitChar(k) == Labels[k][0];
    }
  }

  /** The hundreds digit of n is k exactly when n is in [100k, 100k + 100). */
  lemma HundredOf(n: real, k: nat)
    requires 0.0 <= n
    ensures n.Floor / 100 == k <==> (100 * k) as real <= n < (100 * k + 100) as real
  {
    var f := n.Floor;
    assert f as real <= n < f as real + 1.0;
    var j := f / 100;
    assert 100 * j <= f < 100 * j + 100;
    if j < k {
      assert (100 * j + 100) as real <= (100 * k) as real;
    } else if j > k {
      assert (100 * k + 100) as real <= (100 * j) as real;
    }
  }

  /** `GetDeweyCategory(Some(n)) == Labels[k]` holds exactly when n is in the
      k-th hundred, except that the default bucket also takes everything
      outside [0, 1000). */
  lemma BucketMembership(n: real, k: nat)
    requires 1 <= k < 10
    ensures GetDeweyCategory(Some(n)) == Labels[k] <==> (100 * k) as real <= n < (100 * k + 100) as real
  {
    if 0.0 <= n < 1000.0 {
      ResolvesByHundreds(n);
      LabelsDistinct(n.Floor / 100, k);
      HundredOf(n, k);
    } else {
      LabelsDistinct(0, k);
    }
  }

  lemma BoundaryCases()
    ensures GetDeweyCategory(None) == "000-099"
    ensures GetDeweyCategory(Some(99.99)) == "000-099"
    ensures GetDeweyCategory(Some(100.0)) == "100-199"
    ensures GetDeweyCategory(Some(999.99)) == "900-999"
    ensures GetDeweyCategory(Some(1000.0)) == "000-099"
    ensures GetDeweyCategory(Some(-0.5)) == "000-099"
  {
  }
}
