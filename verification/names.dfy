/** Deterministic identifiers of the generated code: `_node{step}_output{out}`
    for bound values and `inlet{i}` for nested-graph parameters, with decimal
    rendering of the indices as `format!("{}")` does it. */
module Names {

  predicate IsDigit(c: char) {
    '0' <= c <= '9'
  }

  function Digit(d: nat): (c: char)
    requires d < 10
    ensures IsDigit(c)
  {
    "0123456789"[d]
  }

  /** Decimal rendering without leading zeros. */
  function NatToString(n: nat): (s: string)
    ensures 1 <= |s|
    ensures forall i :: 0 <= i < |s| ==> IsDigit(s[i])
    ensures |s| == 1 <==> n < 10
    decreases n
  {
    if n < 10 then [Digit(n)] else NatToString(n / 10) + [Digit(n % 10)]
  }

  lemma DigitInjective(a: nat, b: nat)
    requires a < 10 && b < 10
    requires Digit(a) == Digit(b)
    ensures a == b
  {
  }

  /** Distinct numbers render to distinct strings. */
  lemma {:induction false} NatToStringInjective(a: nat, b: nat)
    requires NatToString(a) == NatToString(b)
    ensures a == b
    decreases a
  {
    var s := NatToString(a);
    if a < 10 {
      assert |s| == 1;
      assert b < 10;
      DigitInjective(a, b);
    } else {
      assert b >= 10;
      var sa := NatToString(a / 10);
      var sb := NatToString(b / 10);
      assert s == sa + [Digit(a % 10)];
      assert s == sb + [Digit(b % 10)];
      assert s[|s| - 1] == Digit(a % 10) == Digit(b % 10);
      DigitInjective(a % 10, b % 10);
      assert sa == s[..|s| - 1] == sb;
      NatToStringInjective(a / 10, b / 10);
    }
  }

  /** Name of the variable bound for output `out` of step `step`. */
  function VarName(step: nat, out: nat): string {
    "_node" + NatToString(step) + "_output" + NatToString(out)
  }

  /** Name of the `i`th parameter of a nested-graph evaluator function. */
  function InletName(i: nat): string {
    "inlet" + NatToString(i)
  }

  lemma SeparatorAt(a: string, sep: string, b: string)
    ensures 1 <= |sep| ==> (a + sep + b)[|a|] == sep[0]
  {
  }

  /** Two digit strings followed by the same separator split the same way
      when the separator starts with a non-digit. */
  lemma SplitAtSeparator(a: string, b: string, c: string, d: string, sep: string)
    requires forall i :: 0 <= i < |a| ==> IsDigit(a[i])
    requires forall i :: 0 <= i < |c| ==> IsDigit(c[i])
    requires 1 <= |sep| && !IsDigit(sep[0])
    requires a + sep + b == c + sep + d
    ensures a == c && b == d
  {
    var l := a + sep + b;
    if |a| < |c| {
      SeparatorAt(a, sep, b);
      assert false;
    } else if |c| < |a| {
      SeparatorAt(c, sep, d);
      assert false;
    }
    assert a == l[..|a|] == c;
    assert b == l[|a| + |sep|..] == d;
  }

  /** Bindings are keyed by (step, output): distinct keys never share a name. */
  lemma VarNameInjective(s1: nat, o1: nat, s2: nat, o2: nat)
    requires VarName(s1, o1) == VarName(s2, o2)
    ensures s1 == s2 && o1 == o2
  {
    var p := "_node";
    var a, b := NatToString(s1), NatToString(o1);
    var c, d := NatToString(s2), NatToString(o2);
    assert VarName(s1, o1) == p + (a + "_output" + b);
    assert VarName(s2, o2) == p + (c + "_output" + d);
    assert a + "_output" + b == VarName(s1, o1)[|p|..] == c + "_output" + d;
    SplitAtSeparator(a, b, c, d, "_output");
    NatToStringInjective(s1, s2);
    NatToStringInjective(o1, o2);
  }

  lemma InletNameInjective(i: nat, j: nat)
    requires InletName(i) == InletName(j)
    ensures i == j
  {
    assert NatToString(i) == InletName(i)[5..] == InletName(j)[5..] == NatToString(j);
    NatToStringInjective(i, j);
  }
}
