/**
 * Nesting depth of round brackets in a string, used to state that the
 * renderings of syntax trees are fully parenthesized.
 */
module Parens {
  /** The change in depth one character makes. */
  function Step(c: char): int {
    if c == '(' then 1 else if c == ')' then -1 else 0
  }

  /** Opening minus closing brackets in `s`. */
  function Depth(s: string): int {
    if s == [] then 0 else Depth(s[..|s| - 1]) + Step(s[|s| - 1])
  }

  predicate ParenFree(s: string) {
    forall k :: 0 <= k < |s| ==> s[k] != '(' && s[k] != ')'
  }

  /** No prefix of `s` closes more brackets than it opens. */
  predicate NeverBelow(s: string, floor: int) {
    forall k :: 0 <= k <= |s| ==> Depth(s[..k]) >= floor
  }

  /** Every bracket is matched, and none is closed before it is opened. */
  predicate Balanced(s: string) {
    Depth(s) == 0 && NeverBelow(s, 0)
  }

  /** `s` is one bracketed group: the first bracket is closed by the last character and by no earlier one. */
  predicate Enclosed(s: string) {
    && Balanced(s)
    && |s| >= 2 && s[0] == '(' && s[|s| - 1] == ')'
    && forall k :: 0 < k < |s| ==> Depth(s[..k]) >= 1
  }

  lemma {:induction false} DepthAppend(a: string, b: string)
    ensures Depth(a + b) == Depth(a) + Depth(b)
    decreases |b|
  {
    if b == [] {
      assert a + b == a;
    } else {
      var b' := b[..|b| - 1];
      assert (a + b)[..|a + b| - 1] == a + b';
      DepthAppend(a, b');
    }
  }

  lemma {:induction false} ParenFreeDepth(s: string)
    requires ParenFree(s)
    ensures Depth(s) == 0
    decreases |s|
  {
    if s != [] {
      ParenFreeDepth(s[..|s| - 1]);
    }
  }

  lemma ParenFreeBalanced(s: string)
    requires ParenFree(s)
    ensures Balanced(s)
  {
    ParenFreeDepth(s);
    forall k | 0 <= k <= |s| ensures Depth(s[..k]) >= 0 {
      ParenFreeDepth(s[..k]);
    }
  }

  /** Prefixes of a concatenation that reach into its second part. */
  lemma PrefixDepth(a: string, b: string, k: nat)
    requires |a| <= k <= |a| + |b|
    ensures Depth((a + b)[..k]) == Depth(a) + Depth(b[..k - |a|])
  {
    assert (a + b)[..k] == a + b[..k - |a|];
    DepthAppend(a, b[..k - |a|]);
  }

  lemma BalancedAppend(a: string, b: string)
    requires Balanced(a) && Balanced(b)
    ensures Balanced(a + b)
  {
    DepthAppend(a, b);
    forall k | 0 <= k <= |a + b| ensures Depth((a + b)[..k]) >= 0 {
      if k <= |a| {
        assert (a + b)[..k] == a[..k];
      } else {
        PrefixDepth(a, b, k);
      }
    }
  }

  /** Wrapping a balanced string in a pair of brackets makes one bracketed group. */
  lemma Wrap(s: string)
    requires Balanced(s)
    ensures Enclosed("(" + s + ")")
  {
    var w := "(" + s + ")";
    var open := "(" + s;
    assert w == open + ")";
    assert Depth("(") == 1 by {
      assert "("[..0] == [];
    }
    DepthAppend("(", s);
    DepthAppend(open, ")");
    assert Depth(")") == -1 by {
      assert ")"[..0] == [];
    }
    forall k | 0 < k < |w| ensures Depth(w[..k]) >= 1 {
      assert w[..k] == ("(" + s)[..k];
      PrefixDepth("(", s, k);
    }
    assert w[..0] == [];
    assert w[..|w|] == w;
  }
}
