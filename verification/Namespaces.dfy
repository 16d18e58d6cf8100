/** Opening and closing namespaces in generated code. */
module Namespaces {

  class Namespace {
    const components: seq<string>

    constructor (components: seq<string>)
      ensures this.components == components
    {
      this.components := components;
    }
  }

  /** The components of a namespace; null is the global one. */
  function Components(ns: Namespace?): seq<string> {
    if ns == null then [] else ns.components
  }

  datatype Token = Opens(name: string) | Closes(name: string)

  datatype Nesting = Bad | Nested(stack: seq<string>)

  /** What is open after a token: a namespace can only be closed if it is the innermost open one. */
  function Apply(n: Nesting, t: Token): Nesting {
    match (n, t)
    case (Nested(stack), Opens(name)) => Nested(stack + [name])
    case (Nested(stack), Closes(name)) =>
      if stack != [] && stack[|stack| - 1] == name then Nested(stack[..|stack| - 1]) else Bad
    case (Bad, _) => Bad
  }

  function Run(code: seq<Token>, n: Nesting): Nesting {
    if code == [] then n else Apply(Run(code[..|code| - 1], n), code[|code| - 1])
  }

  lemma RunSnoc(code: seq<Token>, t: Token, n: Nesting)
    ensures Run(code + [t], n) == Apply(Run(code, n), t)
  {
    assert (code + [t])[..|code|] == code;
  }

  lemma {:induction false} RunConcat(s: seq<Token>, t: seq<Token>, n: Nesting)
    ensures Run(s + t, n) == Run(t, Run(s, n))
    decreases |t|
  {
    if t == [] {
      assert s + t == s;
    } else {
      var u := t[..|t| - 1];
      RunConcat(s, u, n);
      RunSnoc(s + u, t[|t| - 1], n);
      assert s + t == (s + u) + [t[|t| - 1]];
    }
  }

  /** How many leading components two namespaces share. */
  function Common(a: seq<string>, b: seq<string>): (n: nat)
    ensures n <= |a| && n <= |b| && a[..n] == b[..n]
    ensures n < |a| && n < |b| ==> a[n] != b[n]
  {
    if a == [] || b == [] || a[0] != b[0] then 0
    else
      var n := Common(a[1..], b[1..]);
      assert a[..n + 1] == [a[0]] + a[1..][..n] && b[..n + 1] == [b[0]] + b[1..][..n];
      1 + n
  }

  lemma CommonUnique(a: seq<string>, b: seq<string>, n: nat)
    requires n <= |a| && n <= |b| && a[..n] == b[..n]
    requires n < |a| && n < |b| ==> a[n] != b[n]
    ensures n == Common(a, b)
  {
    var m := Common(a, b);
    if n < m {
      AgreeBelow(a, b, m, n);
    } else if m < n {
      AgreeBelow(a, b, n, m);
    }
  }

  lemma AgreeBelow(a: seq<string>, b: seq<string>, m: nat, n: nat)
    requires n < m <= |a| && m <= |b| && a[..m] == b[..m]
    ensures a[n] == b[n]
  {
    assert a[n] == a[..m][n];
  }

  /** Components to close and components to open. */
  function Distance(a: seq<string>, b: seq<string>): nat {
    |a| + |b| - 2 * Common(a, b)
  }

  method CommonPrefix(a: seq<string>, b: seq<string>) returns (common: nat)
    ensures common == Common(a, b)
  {
    common := 0;
    while common < |a| && common < |b| && b[common] == a[common]
      invariant common <= |a| && common <= |b| && a[..common] == b[..common]
    {
      common := common + 1;
    }
    CommonUnique(a, b, common);
  }

  /** Closes a down to its first n components, innermost first. */
  method CloseTo(a: seq<string>, n: nat) returns (t: seq<Token>)
    requires n <= |a|
    ensures Run(t, Nested(a)) == Nested(a[..n]) && |t| == |a| - n
  {
    t := [];
    var j: nat := |a|;
    while j > n
      invariant n <= j <= |a|
      invariant Run(t, Nested(a)) == Nested(a[..j]) && |t| == |a| - j
    {
      RunSnoc(t, Closes(a[j - 1]), Nested(a));
      assert a[..j][..j - 1] == a[..j - 1];
      t := t + [Closes(a[j - 1])];
      j := j - 1;
    }
  }

  /** Opens b from its first n components on, outermost first. */
  method OpenFrom(b: seq<string>, n: nat) returns (t: seq<Token>)
    requires n <= |b|
    ensures Run(t, Nested(b[..n])) == Nested(b) && |t| == |b| - n
  {
    t := [];
    var j := n;
    while j != |b|
      invariant n <= j <= |b|
      invariant Run(t, Nested(b[..n])) == Nested(b[..j]) && |t| == j - n
    {
      RunSnoc(t, Opens(b[j]), Nested(b[..n]));
      assert b[..j] + [b[j]] == b[..j + 1];
      t := t + [Opens(b[j])];
      j := j + 1;
    }
    assert b[..|b|] == b;
  }

  class NamespaceEmitter {
    var current: Namespace?
    var code: seq<Token>

    /** What is open is exactly what the current namespace names, and everything closed was the innermost. */
    ghost predicate Valid()
      reads this
    {
      Run(code, Nested([])) == Nested(Components(current))
    }

    constructor ()
      ensures Valid() && current == null && code == []
    {
      current, code := null, [];
    }

    /** Whatever was current before: ns is current now, and the fewest tokens that get there have been appended. */
    method SetNameSpace(ns: Namespace?)
      requires Valid()
      modifies this
      ensures Valid() && current == ns
      ensures old(code) <= code
      ensures var t := code[|old(code)|..];
              && Run(t, Nested(old(Components(current)))) == Nested(Components(ns))
              && |t| == Distance(old(Components(current)), Components(ns))
    {
      if current == ns {
        DistanceFacts(Components(ns), Components(ns), "");
        return;
      }
      var a, b := Components(current), Components(ns);
      var common := CommonPrefix(a, b);
      var closing := CloseTo(a, common);
      var opening := OpenFrom(b, common);
      RunConcat(closing, opening, Nested(a));
      RunConcat(code, closing + opening, Nested([]));
      code := code + (closing + opening);
      current := ns;
    }

    /** A whole file: one call for each definition, and at the end, if a namespace is still current, one with null. */
    method GenerateFile(definitions: seq<Namespace?>)
      requires Valid() && current == null && code == []
      modifies this
      ensures current == null && Run(code, Nested([])) == Nested([])
      ensures Count(code) == 0
    {
      for i := 0 to |definitions|
        invariant Valid()
      {
        SetNameSpace(definitions[i]);
      }
      if current != null {
        SetNameSpace(null);
      }
      Balanced(code, []);
    }
  }

  // ---------------------------------------------------------------- no shorter way

  lemma DistanceFacts(a: seq<string>, b: seq<string>, name: string)
    ensures Distance(a, a) == 0
    ensures Distance(a + [name], b) <= Distance(a, b) + 1 && Distance(a, b) <= Distance(a + [name], b) + 1
  {
    CommonUnique(a, a, |a|);
    var n := Common(a, b);
    if n == |a| && n < |b| && b[n] == name {
      assert (a + [name])[..n + 1] == b[..n + 1];
      CommonUnique2(a + [name], b, n + 1);
    } else {
      assert (a + [name])[..n] == a[..n];
      CommonUnique(a + [name], b, n);
    }
  }

  lemma CommonUnique2(a: seq<string>, b: seq<string>, n: nat)
    requires n == |a| && n <= |b| && a == b[..n]
    ensures n == Common(a, b)
  {
    assert a[..n] == a;
    CommonUnique(a, b, n);
  }

  /** Any tokens that lead from what is open in a to what is open in b are at least as many as SetNameSpace emits. */
  lemma {:induction false} NoShorterWay(t: seq<Token>, a: seq<string>, b: seq<string>)
    requires Run(t, Nested(a)) == Nested(b)
    ensures |t| >= Distance(a, b)
    decreases |t|
  {
    if t == [] {
      DistanceFacts(a, a, "");
    } else {
      var u, last := t[..|t| - 1], t[|t| - 1];
      var c := Run(u, Nested(a));
      assert c.Nested?;
      NoShorterWay(u, a, c.stack);
      DistanceSymmetric(a, b);
      DistanceSymmetric(a, c.stack);
      match last
      case Opens(name) => DistanceFacts(c.stack, a, name);
      case Closes(name) =>
        assert b + [name] == c.stack;
        DistanceFacts(b, a, name);
    }
  }

  lemma DistanceSymmetric(a: seq<string>, b: seq<string>)
    ensures Distance(a, b) == Distance(b, a)
  {
    CommonUnique(b, a, Common(a, b));
  }

  /** Namespaces opened less namespaces closed. */
  function Count(code: seq<Token>): int {
    if code == [] then 0
    else Count(code[..|code| - 1]) + if code[|code| - 1].Opens? then 1 else -1
  }

  /** What is open is what has been opened and not closed: from null to null, as many are closed as opened. */
  lemma {:induction false} Balanced(code: seq<Token>, stack: seq<string>)
    requires Run(code, Nested(stack)).Nested?
    ensures |Run(code, Nested(stack)).stack| == |stack| + Count(code)
    decreases |code|
  {
    if code != [] {
      Balanced(code[..|code| - 1], stack);
    }
  }
}
