/** Model of the two hand-written LIFO stacks of Estruturas-Lineares/Pilhas/exemplo_pilha.py:
    a stack over a Python list (PilhaLista) and a linked stack with a top reference
    (PilhaEncadeada). */
module Pilhas {
  import opened Outcomes

  /** The exception both stacks raise: "Pilha vazia". */
  datatype ErroPilha = PilhaVazia

  /** `xs` in reverse order: the order in which a stack gives back what was pushed. */
  function Invertida<T>(xs: seq<T>): (r: seq<T>)
    ensures |r| == |xs|
    ensures forall k :: 0 <= k < |xs| ==> r[k] == xs[|xs| - 1 - k]
  {
    if xs == [] then [] else [xs[|xs| - 1]] + Invertida(xs[..|xs| - 1])
  }

  // ---------------------------------------------------------------------------
  // PilhaLista: a Python list whose end is the top.
  // ---------------------------------------------------------------------------

  class PilhaLista<T> {
    /** Bottom first; the last item is the top. */
    var itens: seq<T>

    constructor ()
      ensures itens == []
    {
      itens := [];
    }

    function EstaVazia(): (r: bool)
      reads this
      ensures r <==> itens == []
    {
      |itens| == 0
    }

    method Empilhar(item: T)
      modifies this
      ensures itens == old(itens) + [item]
    {
      itens := itens + [item];
    }

    /** Removes the top item; on an empty stack reports PilhaVazia and changes nothing. */
    method Desempilhar() returns (r: Result<T, ErroPilha>)
      modifies this
      ensures old(itens) == [] ==> r == Err(PilhaVazia) && itens == old(itens)
      ensures old(itens) != [] ==>
        && r == Ok(old(itens)[|old(itens)| - 1])
        && itens == old(itens)[..|old(itens)| - 1]
    {
      if EstaVazia() {
        return Err(PilhaVazia);
      }
      r := Ok(itens[|itens| - 1]);
      itens := itens[..|itens| - 1];
    }

    function Topo(): (r: Result<T, ErroPilha>)
      reads this
      ensures itens == [] ==> r == Err(PilhaVazia)
      ensures itens != [] ==> r == Ok(itens[|itens| - 1])
    {
      if EstaVazia() then Err(PilhaVazia) else Ok(itens[|itens| - 1])
    }

    function Tamanho(): (n: nat)
      reads this
      ensures n == |itens|
    {
      |itens|
    }
  }

  /** LIFO for PilhaLista: popping right after pushing `x` gives back `x` and the previous items. */
  method PilhaListaDesfaz<T>(p: PilhaLista<T>, x: T) returns (r: Result<T, ErroPilha>)
    modifies p
    ensures r == Ok(x) && p.itens == old(p.itens)
  {
    p.Empilhar(x);
    r := p.Desempilhar();
  }

  /** LIFO for PilhaLista: pushing `xs` onto a new stack and popping until empty yields `xs` reversed. */
  method PilhaListaLifo<T>(xs: seq<T>) returns (saida: seq<T>)
    ensures saida == Invertida(xs)
  {
    var pilha := new PilhaLista<T>();
    for i := 0 to |xs|
      invariant pilha.itens == xs[..i]
    {
      pilha.Empilhar(xs[i]);
    }
    assert xs[..|xs|] == xs;
    saida := [];
    while !pilha.EstaVazia()
      invariant |saida| + |pilha.itens| == |xs|
      invariant pilha.itens == xs[..|pilha.itens|]
      invariant saida == Invertida(xs)[..|saida|]
      decreases |pilha.itens|
    {
      var r := pilha.Desempilhar();
      saida := saida + [r.value];
    }
  }

  // ---------------------------------------------------------------------------
  // PilhaEncadeada: a chain of nodes from `topoNo` down to the bottom.
  // ---------------------------------------------------------------------------

  class No<T> {
    var valor: T
    var proximo: No?<T>

    constructor (valor: T)
      ensures this.valor == valor && proximo == null
    {
      this.valor := valor;
      proximo := null;
    }
  }

  class PilhaEncadeada<T> {
    var topoNo: No?<T>
    var tamanho: int

    /** The stacked values, top first. */
    ghost var Contents: seq<T>
    /** The chain of nodes reachable from `topoNo`, in order. */
    ghost var Nodes: seq<No<T>>
    ghost var Repr: set<object>

    /** The chain from `topoNo` holds Contents and `tamanho` counts its nodes. */
    ghost predicate Valid()
      reads this, Repr
    {
      && this in Repr
      && |Nodes| == |Contents| == tamanho
      && (forall i :: 0 <= i < |Nodes| ==> Nodes[i] in Repr && Nodes[i].valor == Contents[i])
      && (forall i :: 0 <= i < |Nodes| - 1 ==> Nodes[i].proximo == Nodes[i + 1])
      && (forall i, j :: 0 <= i < j < |Nodes| ==> Nodes[i] != Nodes[j])
      && (if Nodes == [] then topoNo == null
          else topoNo == Nodes[0] && Nodes[|Nodes| - 1].proximo == null)
    }

    constructor ()
      ensures Valid() && fresh(Repr)
      ensures Contents == []
    {
      topoNo, tamanho := null, 0;
      Contents, Nodes, Repr := [], [], {this};
    }

    function EstaVazia(): (r: bool)
      reads this, Repr
      requires Valid()
      ensures r <==> Contents == []
    {
      topoNo == null
    }

    /** Links a new node in front of `topoNo`. */
    method Empilhar(item: T)
      requires Valid()
      modifies this
      ensures Valid() && fresh(Repr - old(Repr))
      ensures Contents == [item] + old(Contents)
      ensures tamanho == old(tamanho) + 1
    {
      var novo := new No(item);
      novo.proximo := topoNo;
      topoNo := novo;
      tamanho := tamanho + 1;
      Contents := [item] + Contents;
      Nodes := [novo] + Nodes;
      Repr := Repr + {novo};
    }

    /** Unlinks the top node; on an empty stack reports PilhaVazia and changes nothing. */
    method Desempilhar() returns (r: Result<T, ErroPilha>)
      requires Valid()
      modifies this
      ensures Valid() && Repr == old(Repr)
      ensures old(Contents) == [] ==> r == Err(PilhaVazia) && unchanged(this)
      ensures old(Contents) != [] ==>
        && r == Ok(old(Contents)[0])
        && Contents == old(Contents)[1..]
        && tamanho == old(tamanho) - 1
    {
      if EstaVazia() {
        return Err(PilhaVazia);
      }
      var valor := topoNo.valor;
      topoNo := topoNo.proximo;
      tamanho := tamanho - 1;
      Contents := Contents[1..];
      Nodes := Nodes[1..];
      r := Ok(valor);
    }

    function Topo(): (r: Result<T, ErroPilha>)
      reads this, Repr
      requires Valid()
      ensures Contents == [] ==> r == Err(PilhaVazia)
      ensures Contents != [] ==> r == Ok(Contents[0])
    {
      if EstaVazia() then Err(PilhaVazia) else Ok(topoNo.valor)
    }

    function Tamanho(): (n: int)
      reads this, Repr
      requires Valid()
      ensures n == |Contents|
    {
      tamanho
    }
  }

  /** LIFO for PilhaEncadeada: popping right after pushing `x` gives back `x` and the previous items. */
  method PilhaEncadeadaDesfaz<T>(p: PilhaEncadeada<T>, x: T) returns (r: Result<T, ErroPilha>)
    requires p.Valid()
    modifies p
    ensures p.Valid() && fresh(p.Repr - old(p.Repr))
    ensures r == Ok(x) && p.Contents == old(p.Contents)
  {
    p.Empilhar(x);
    r := p.Desempilhar();
  }

  /** LIFO for PilhaEncadeada: pushing `xs` onto a new stack and popping until empty yields `xs` reversed. */
  method PilhaEncadeadaLifo<T>(xs: seq<T>) returns (saida: seq<T>)
    ensures saida == Invertida(xs)
  {
    var pilha := new PilhaEncadeada<T>();
    for i := 0 to |xs|
      invariant pilha.Valid() && fresh(pilha.Repr)
      invariant pilha.Contents == Invertida(xs[..i])
    {
      assert xs[..i + 1][..i] == xs[..i];
      pilha.Empilhar(xs[i]);
    }
    assert xs[..|xs|] == xs;
    saida := [];
    while !pilha.EstaVazia()
      invariant pilha.Valid() && fresh(pilha.Repr)
      invariant saida + pilha.Contents == Invertida(xs)
      decreases |pilha.Contents|
    {
      var r := pilha.Desempilhar();
      saida := saida + [r.value];
    }
  }
}
