/**
 * Names of the two anonymous shared-memory objects that back one fork tree
 * (fork_tree.c, fork_tree_gen_shared_tree_name_fd and fork_tree_gen_page_name_fd).
 * The metadata object is called "p_tree_<n>" for the tree counter n, and the page
 * object is that name followed by "_p".
 */
module Names {
  import opened Wrappers

  /** The C `int` the tree counter is stored in. */
  newtype Int32 = x: int | -0x8000_0000 <= x < 0x8000_0000

  const TreeNamePrefix: string := "p_tree_"
  const PageNameSuffix: string := "_p"
  /** Bytes malloc'ed for the tree name, terminating NUL included. */
  const NameBufferSize: nat := 19
  /** Counters from this value on are refused. */
  const TreeNumberLimit: int := 999999999

  function DigitChar(d: nat): (c: char)
    requires d < 10
    ensures '0' <= c <= '9' && (c as int) - ('0' as int) == d
  {
    ['0', '1', '2', '3', '4', '5', '6', '7', '8', '9'][d]
  }

  predicate AllDigits(s: string)
  {
    forall i :: 0 <= i < |s| ==> '0' <= s[i] <= '9'
  }

  /** Decimal digits of a natural number, most significant first, no leading zeros. */
  function Digits(n: nat): (r: string)
    ensures |r| > 0 && AllDigits(r)
    decreases n
  {
    if n < 10 then [DigitChar(n)] else Digits(n / 10) + [DigitChar(n % 10)]
  }

  /** What `%d` prints for n: a minus sign exactly for negative n, then digits, ending in a digit. */
  function Decimal(n: int): (r: string)
    ensures |r| > 0 && (r[0] == '-' <==> n < 0)
    ensures '0' <= r[|r| - 1] <= '9'
  {
    if n < 0 then "-" + Digits(-n) else Digits(n)
  }

  /** Value of a string of decimal digits (the reference reading of `%d`'s output). */
  function DigitsValue(s: string): nat
    requires AllDigits(s)
  {
    if s == [] then 0
    else DigitsValue(s[..|s| - 1]) * 10 + ((s[|s| - 1] as int) - ('0' as int))
  }

  function ParseDecimal(s: string): Option<int>
  {
    if |s| > 1 && s[0] == '-' && AllDigits(s[1..]) then Some(-(DigitsValue(s[1..]) as int))
    else if s != [] && AllDigits(s) then Some(DigitsValue(s))
    else None
  }

  function Pow10(k: nat): nat
  {
    if k == 0 then 1 else 10 * Pow10(k - 1)
  }

  lemma {:induction false} DigitsRoundTrip(n: nat)
    ensures DigitsValue(Digits(n)) == n
    decreases n
  {
    if n >= 10 {
      DigitsRoundTrip(n / 10);
      var s := Digits(n);
      assert s[..|s| - 1] == Digits(n / 10);
    }
  }

  lemma {:induction false} DigitsLength(n: nat, k: nat)
    requires k >= 1 && n < Pow10(k)
    ensures |Digits(n)| <= k
    decreases n
  {
    if n >= 10 {
      assert k >= 2;
      assert Pow10(k) == 10 * Pow10(k - 1);
      assert n / 10 < Pow10(k - 1);
      DigitsLength(n / 10, k - 1);
    }
  }

  lemma ParseNegative(m: nat)
    requires m > 0
    ensures ParseDecimal("-" + Digits(m)) == Some(-(m as int))
  {
    var d := Digits(m);
    assert ("-" + d)[1..] == d;
    DigitsRoundTrip(m);
  }

  lemma ParseNonNegative(m: nat)
    ensures ParseDecimal(Digits(m)) == Some(m as int)
  {
    var d := Digits(m);
    assert d[0] != '-';
    DigitsRoundTrip(m);
  }

  /** Reading back what `%d` printed gives the number again. */
  lemma DecimalRoundTrip(n: int)
    ensures ParseDecimal(Decimal(n)) == Some(n)
  {
    if n < 0 {
      var m: nat := -n;
      assert Decimal(n) == "-" + Digits(m);
      ParseNegative(m);
    } else {
      var m: nat := n;
      assert Decimal(n) == Digits(m);
      ParseNonNegative(m);
    }
  }

  /** `%d` of a counter below the limit needs at most 11 characters ("-2147483648"). */
  lemma DecimalFitsBuffer(n: Int32)
    requires n as int < TreeNumberLimit
    ensures |Decimal(n as int)| <= NameBufferSize - |TreeNamePrefix| - 1
  {
    Pow10Values();
    if n < 0 {
      DigitsLength(-(n as int), 10);
      assert Decimal(n as int) == "-" + Digits(-(n as int));
    } else {
      DigitsLength(n as int, 9);
    }
  }

  lemma Pow10Values()
    ensures Pow10(9) == 1_000_000_000 && Pow10(10) == 10_000_000_000
  {
    assert Pow10(1) == 10;
    assert Pow10(2) == 100;
    assert Pow10(3) == 1_000;
    assert Pow10(4) == 10_000;
    assert Pow10(5) == 100_000;
    assert Pow10(6) == 1_000_000;
    assert Pow10(7) == 10_000_000;
    assert Pow10(8) == 100_000_000;
  }

  /**
   * fork_tree_gen_shared_tree_name_fd: "p_tree_" followed by the counter in decimal,
   * or failure (NULL) when the counter has reached 999999999.
   */
  function TreeName(treeNumber: Int32): (r: Option<string>)
    ensures r.Some? <==> treeNumber as int < TreeNumberLimit
    ensures r.Some? ==> |TreeNamePrefix| < |r.value| < NameBufferSize
    ensures r.Some? ==> r.value[..|TreeNamePrefix|] == TreeNamePrefix
    ensures r.Some? ==> ParseDecimal(r.value[|TreeNamePrefix|..]) == Some(treeNumber as int)
  {
    if treeNumber as int >= TreeNumberLimit then None
    else
      var name := TreeNamePrefix + Decimal(treeNumber as int);
      assert name[|TreeNamePrefix|..] == Decimal(treeNumber as int);
      DecimalRoundTrip(treeNumber as int);
      DecimalFitsBuffer(treeNumber);
      Some(name)
  }

  /** fork_tree_gen_page_name_fd: the base name followed by "_p". */
  function PageName(base: string): (r: string)
    ensures |r| == |base| + 2
  {
    base + PageNameSuffix
  }

  /** Removing the suffix again: the reference inverse of PageName. */
  function StripPageSuffix(name: string): Option<string>
  {
    if |name| >= 2 && name[|name| - 2..] == PageNameSuffix then Some(name[..|name| - 2]) else None
  }

  lemma PageNameRoundTrip(base: string)
    ensures StripPageSuffix(PageName(base)) == Some(base)
  {
    var r := PageName(base);
    assert r[..|r| - 2] == base;
    assert r[|r| - 2..] == PageNameSuffix;
  }

  /** Different counters give different tree names, hence different page names. */
  lemma TreeNamesDistinct(a: Int32, b: Int32)
    requires a != b && TreeName(a).Some? && TreeName(b).Some?
    ensures TreeName(a).value != TreeName(b).value
    ensures PageName(TreeName(a).value) != PageName(TreeName(b).value)
  {
    if PageName(TreeName(a).value) == PageName(TreeName(b).value) {
      PageNameRoundTrip(TreeName(a).value);
      PageNameRoundTrip(TreeName(b).value);
    }
  }

  /** A page-object name never equals any tree-object name: it ends in 'p', not a digit. */
  lemma PageNameIsNoTreeName(a: Int32, b: Int32)
    requires TreeName(a).Some? && TreeName(b).Some?
    ensures PageName(TreeName(a).value) != TreeName(b).value
  {
    var p := PageName(TreeName(a).value);
    var t := TreeName(b).value;
    assert p[|p| - 1] == 'p';
    var d := Decimal(b as int);
    assert t == TreeNamePrefix + d;
    assert t[|t| - 1] == d[|d| - 1];
  }
}
