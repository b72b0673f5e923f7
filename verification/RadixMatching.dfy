/** Why a walk down the tree stops at the longest stored prefix of a text. */
module RadixMatching {
  import opened Tenants
  import opened Options
  import opened RadixNodes
  import opened Text

  /** No string of `t` that is a prefix of `text` is longer than `k`. */
  ghost predicate NoLonger(s: Store, p: Paths, t: Tenant, text: string, k: nat)
    requires p.Keys == s.Keys
  {
    forall x :: x in Lang(s, p, t) && x <= text ==> |x| <= k
  }

  /** `n` is where a walk that has matched `x` stands: on the root for the empty string, else on
      the node that `x` ends on. */
  ghost predicate EndsOn(s: Store, p: Paths, n: NodeId, x: string)
    requires Wf(s, p)
  {
    n in s && if n == ROOT then x == "" else On(s, p, n, x)
  }

  lemma EndsOnUnique(s: Store, p: Paths, n: NodeId, m: NodeId, x: string)
    requires Wf(s, p) && EndsOn(s, p, n, x) && EndsOn(s, p, m, x)
    ensures n == m
  {
    if n != ROOT && m != ROOT {
      OnUnique(s, p, n, m, x);
    }
  }

  ghost predicate NoneLonger(s: Store, p: Paths, text: string, k: nat)
    requires p.Keys == s.Keys
  {
    forall t :: NoLonger(s, p, t, text, k)
  }

  /** A string one char longer than the path of `q` can end only on a child of `q`. */
  lemma NextOnChild(s: Store, p: Paths, q: NodeId, n: NodeId, x: string)
    requires Wf(s, p) && q in s && n in s && n != ROOT && On(s, p, n, x)
    requires p[q] == x[..|x| - 1]
    ensures s[n].parent == Some(q)
    ensures x[|x| - 1] in s[q].children && s[q].children[x[|x| - 1]] == n
  {
    assert Hangs(s, p, n);
    var r := s[n].parent.value;
    if |p[r]| < |p[q]| {
      OnAtEnd(s, p, q);
      OnUnique(s, p, n, q, p[q]);
    } else {
      assert p[r] == p[q];
      PathsInjective(s, p, r, q);
    }
  }

  /** A string that ends inside a node continues on that node. */
  lemma NextOnSame(s: Store, p: Paths, c: NodeId, n: NodeId, x: string)
    requires Wf(s, p) && c in s && c != ROOT && n in s && n != ROOT && On(s, p, n, x)
    requires |x| > 1 && On(s, p, c, x[..|x| - 1]) && |x| <= |p[c]|
    ensures n == c
  {
    assert Hangs(s, p, n);
    var r, y := s[n].parent.value, x[..|x| - 1];
    if |p[r]| < |y| {
      OnUnique(s, p, n, c, y);
    } else {
      assert p[r] == y;
      OnAtEnd(s, p, r);
      OnUnique(s, p, r, c, y);
    }
  }

  /** If the next string after `text[..k]` ends on no node of `t`, then `t` has nothing longer. */
  lemma Blocked(s: Store, p: Paths, t: Tenant, text: string, k: nat)
    requires Wf(s, p) && k < |text|
    requires forall n :: n in s && n != ROOT && t in s[n].tenants ==> !On(s, p, n, text[..k + 1])
    ensures NoLonger(s, p, t, text, k)
  {
    forall x | x in Lang(s, p, t) && x <= text ensures |x| <= k {
      if |x| > k {
        var y := text[..k + 1];
        LangMember(s, p, t, x);
        var m :| Spells(s, p, t, m, x);
        assert Spells(s, p, t, m, y);
        LangMember(s, p, t, y);
        LangOn(s, p, t, y);
      }
    }
  }

  /** The walk stands at `q`, and the child for the next char is missing or not owned by `t`. */
  lemma StopsAtNode(s: Store, p: Paths, q: NodeId, t: Tenant, text: string)
    requires Wf(s, p) && q in s && p[q] < text
    requires var c := text[|p[q]|]; c in s[q].children && s[q].children[c] in s ==> t !in s[s[q].children[c]].tenants
    ensures NoLonger(s, p, t, text, |p[q]|)
  {
    var k := |p[q]|;
    var y := text[..k + 1];
    forall n | n in s && n != ROOT && t in s[n].tenants ensures !On(s, p, n, y) {
      if On(s, p, n, y) {
        NextOnChild(s, p, q, n, y);
      }
    }
    Blocked(s, p, t, text, k);
  }

  /** The walk stands inside `c`, where the text ends or differs. */
  lemma StopsInside(s: Store, p: Paths, c: NodeId, t: Tenant, text: string, k: nat)
    requires Wf(s, p) && c in s && c != ROOT && k <= |text|
    requires On(s, p, c, text[..k]) && k < |p[c]|
    requires k < |text| ==> text[k] != p[c][k]
    ensures NoLonger(s, p, t, text, k)
  {
    if k < |text| {
      var y := text[..k + 1];
      forall n | n in s && n != ROOT && t in s[n].tenants ensures !On(s, p, n, y) {
        if On(s, p, n, y) {
          assert y[..k] == text[..k];
          NextOnSame(s, p, c, n, y);
        }
      }
      Blocked(s, p, t, text, k);
    }
  }

  /** Entering the child for the next char: how far its text agrees, and what that rules out. */
  lemma Enter(s: Store, p: Paths, q: NodeId, text: string)
    requires Wf(s, p) && q in s && p[q] < text && text[|p[q]|] in s[q].children
    ensures var m := s[q].children[text[|p[q]|]];
            && m in s && m != ROOT
            && var k := SharedPrefixCount(text[|p[q]|..], s[m].text);
            && k > 0 && On(s, p, m, text[..|p[q]| + k])
            && (k == |s[m].text| ==> p[m] == text[..|p[q]| + k])
            && (k < |s[m].text| ==> NoneLonger(s, p, text, |p[q]| + k))
  {
    assert ChildLinks(s, q);
    var m := s[q].children[text[|p[q]|]];
    assert Hangs(s, p, m);
    var rest := text[|p[q]|..];
    var k := SharedPrefixCount(rest, s[m].text);
    var j := |p[q]| + k;
    assert text[..j] == p[q] + rest[..k];
    if k < |s[m].text| {
      forall t ensures NoLonger(s, p, t, text, j) {
        StopsInside(s, p, m, t, text, j);
      }
    }
  }

  /** One round of a walk that stands on `q` after `matched` chars and goes on to a child. */
  lemma Round(s: Store, p: Paths, q: NodeId, text: string, matched: nat)
    requires Wf(s, p) && q in s && matched < |text| && p[q] == text[..matched]
    requires text[matched] in s[q].children
    ensures var m := s[q].children[text[matched]];
            && m in s && m != ROOT
            && var k := SharedPrefixCount(text[matched..], s[m].text);
            && k > 0 && matched + k <= |text| && text[matched..][k..] == text[matched + k..]
            && EndsOn(s, p, m, text[..matched + k])
            && (k == |s[m].text| ==> p[m] == text[..matched + k])
            && (k != |s[m].text| ==> NoneLonger(s, p, text, matched + k))
  {
    Enter(s, p, q, text);
  }

  /** Follow `text` down from the root as far as the stored texts agree with it. */
  method Walk(s: Store, ghost p: Paths, text: string) returns (curr: NodeId, matched: nat)
    requires Wf(s, p)
    ensures matched <= |text| && EndsOn(s, p, curr, text[..matched])
    ensures NoneLonger(s, p, text, matched)
  {
    var remaining := text;
    curr, matched := ROOT, 0;
    while remaining != ""
      invariant matched <= |text| && remaining == text[matched..]
      invariant curr in s && p[curr] == text[..matched]
      invariant EndsOn(s, p, curr, text[..matched])
      decreases |remaining|
    {
      var c := remaining[0];
      if c !in s[curr].children {
        forall t ensures NoLonger(s, p, t, text, matched) { StopsAtNode(s, p, curr, t, text); }
        break;
      }
      Round(s, p, curr, text, matched);
      var next := s[curr].children[c];
      var shared := SharedPrefixCount(remaining, s[next].text);
      matched := matched + shared;
      curr := next;
      if shared != |s[next].text| {
        break;
      }
      remaining := remaining[shared..];
    }
  }

  /** The same walk, entering only nodes that `t` owns. */
  method WalkTenant(s: Store, ghost p: Paths, text: string, t: Tenant) returns (curr: NodeId, matched: nat)
    requires Wf(s, p)
    ensures matched <= |text| && EndsOn(s, p, curr, text[..matched])
    ensures curr != ROOT ==> t in s[curr].tenants
    ensures NoLonger(s, p, t, text, matched)
  {
    var remaining := text;
    curr, matched := ROOT, 0;
    while remaining != ""
      invariant matched <= |text| && remaining == text[matched..]
      invariant curr in s && p[curr] == text[..matched]
      invariant EndsOn(s, p, curr, text[..matched])
      invariant curr != ROOT ==> t in s[curr].tenants
      decreases |remaining|
    {
      var c := remaining[0];
      if c !in s[curr].children {
        StopsAtNode(s, p, curr, t, text);
        break;
      }
      Round(s, p, curr, text, matched);
      var next := s[curr].children[c];
      if t !in s[next].tenants {
        StopsAtNode(s, p, curr, t, text);
        break;
      }
      var shared := SharedPrefixCount(remaining, s[next].text);
      matched := matched + shared;
      curr := next;
      if shared != |s[next].text| {
        break;
      }
      remaining := remaining[shared..];
    }
  }
}
