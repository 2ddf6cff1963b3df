/**
 Paths of bits through a grammar, and the path to every symbol.
 */
module Paths {
  import opened Numeric
  import opened Grammar
  import opened SymbolDecoder
  import opened Encoding
  import Spelling

  predicate Leads(t: Tree, w: seq<nat>, u: Tree) {
    Path(t, w) && Ending(t, w) == u
  }

  lemma {:induction false} LeadsJoin(t: Tree, w: seq<nat>, u: Tree, v: seq<nat>, z: Tree)
    requires Leads(t, w, u) && Leads(u, v, z)
    ensures Leads(t, w + v, z)
    decreases |w|
  {
    if w == [] {
      assert w + v == v;
    } else {
      LeadsJoin(Child(t, w[0]), w[1..], u, v, z);
      assert (w + v)[1..] == w[1..] + v;
    }
  }

  lemma OneBit(t: Tree, bit: nat)
    requires !t.Done? && bit <= 1
    ensures Leads(t, [bit], Child(t, bit))
  {
    assert Path(Child(t, bit), []);
    assert [bit][1..] == [];
  }

  /** The binary digits of a node's number below the first: the way down to it */
  function Digits(n: nat): seq<nat> {
    if n <= 1 then [] else Digits(n / 2) + [n % 2]
  }

  /** The bits of a code */
  function BitsOf(cs: seq<Spelling.Choice>): seq<nat> {
    if cs == [] then [] else [cs[0].bit] + BitsOf(cs[1..])
  }

  lemma {:induction false} ReadsLeads(t: Tree, cs: seq<Spelling.Choice>, u: Tree)
    requires Spelling.Reads(t, cs, u)
    ensures Leads(t, BitsOf(cs), u)
    decreases |cs|
  {
    if cs != [] {
      var w := BitsOf(cs[1..]);
      ReadsLeads(Child(t, cs[0].bit), cs[1..], u);
      assert ([cs[0].bit] + w)[1..] == w;
    }
  }

  /** In every context the bits of a symbol's code lead to it. */
  lemma SymbolLeads(c: Ctx, s: Sym) returns (w: seq<nat>)
    requires s.Rep? ==> s.index < 4
    ensures w == BitsOf(Spelling.Code(c, s)) && Leads(SymbolTree(c), w, Done(s))
  {
    hide *;
    Spelling.SymbolReads(c, s);
    ReadsLeads(SymbolTree(c), Spelling.Code(c, s), Done(s));
    w := BitsOf(Spelling.Code(c, s));
  }
}
