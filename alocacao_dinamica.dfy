/** Model of the linked list of Conceitos-Fundamentais/Alocacao-Dinamica/exemplo_dinamica.py:
    a chain of nodes from `cabeca`, a counter `tamanho`, insertion at either end and removal
    of the first node holding a value. */
module AlocacaoDinamica {

  /** `s` without its first occurrence of `v`; `s` itself when `v` does not occur. */
  function SemPrimeiro<T(==)>(s: seq<T>, v: T): (r: seq<T>)
    ensures |r| == if v in s then |s| - 1 else |s|
  {
    if s == [] then []
    else if s[0] == v then s[1..]
    else [s[0]] + SemPrimeiro(s[1..], v)
  }

  /** Removing the first occurrence, at index `k`, keeps everything before and after it. */
  lemma {:induction false} SemPrimeiroEm<T>(s: seq<T>, v: T, k: nat)
    requires k < |s| && s[k] == v && v !in s[..k]
    ensures SemPrimeiro(s, v) == s[..k] + s[k + 1..]
    decreases k
  {
    if k > 0 {
      assert s[0] in s[..k];
      assert s[1..][..k - 1] == s[..k][1..];
      SemPrimeiroEm(s[1..], v, k - 1);
      assert s[..k] == [s[0]] + s[1..][..k - 1];
    }
  }

  /** When `v` does not occur, nothing is removed. */
  lemma {:induction false} SemPrimeiroAusente<T>(s: seq<T>, v: T)
    requires v !in s
    ensures SemPrimeiro(s, v) == s
  {
    if s != [] {
      assert s[0] in s;
      SemPrimeiroAusente(s[1..], v);
    }
  }

  /** Exactly one copy of `v` goes away when it occurs, and nothing else changes. */
  lemma {:induction false} SemPrimeiroMultiset<T>(s: seq<T>, v: T)
    ensures v in s ==> multiset(SemPrimeiro(s, v)) == multiset(s) - multiset{v}
    ensures v !in s ==> multiset(SemPrimeiro(s, v)) == multiset(s)
  {
    if s != [] {
      SemPrimeiroMultiset(s[1..], v);
      assert s == [s[0]] + s[1..];
    }
  }

  class No<T> {
    var valor: T
    var proximo: No?<T>

    constructor (valor: T)
      ensures this.valor == valor && proximo == null
    {
      this.valor := valor;
      proximo := null;
    }
  }

  class ListaEncadeada<T(==)> {
    var cabeca: No?<T>
    var tamanho: int

    /** The listed values, from `cabeca` on. */
    ghost var Contents: seq<T>
    /** The chain of nodes reachable from `cabeca`, in order. */
    ghost var Nodes: seq<No<T>>
    ghost var Repr: set<object>

    /** The chain from `cabeca` holds Contents and `tamanho` counts its nodes. */
    ghost predicate Valid()
      reads this, Repr
    {
      && this in Repr
      && |Nodes| == |Contents| == tamanho
      && (forall i :: 0 <= i < |Nodes| ==> Nodes[i] in Repr && Nodes[i].valor == Contents[i])
      && (forall i :: 0 <= i < |Nodes| - 1 ==> Nodes[i].proximo == Nodes[i + 1])
      && (forall i, j :: 0 <= i < j < |Nodes| ==> Nodes[i] != Nodes[j])
      && (if Nodes == [] then cabeca == null
          else cabeca == Nodes[0] && Nodes[|Nodes| - 1].proximo == null)
    }

    constructor ()
      ensures Valid() && fresh(Repr)
      ensures Contents == []
    {
      cabeca, tamanho := null, 0;
      Contents, Nodes, Repr := [], [], {this};
    }

    function EstaVazia(): (r: bool)
      reads this, Repr
      requires Valid()
      ensures r <==> Contents == []
    {
      cabeca == null
    }

    /** Links a new node in front of `cabeca`. */
    method InserirInicio(valor: T)
      requires Valid()
      modifies this
      ensures Valid() && fresh(Repr - old(Repr))
      ensures Contents == [valor] + old(Contents)
      ensures tamanho == old(tamanho) + 1
    {
      var novo := new No(valor);
      novo.proximo := cabeca;
      cabeca := novo;
      tamanho := tamanho + 1;
      Contents := [valor] + Contents;
      Nodes := [novo] + Nodes;
      Repr := Repr + {novo};
    }

    /** Walks to the last node and links a new node after it. */
    method InserirFim(valor: T)
      requires Valid()
      modifies Repr
      ensures Valid() && fresh(Repr - old(Repr))
      ensures Contents == old(Contents) + [valor]
      ensures tamanho == old(tamanho) + 1
    {
      if EstaVazia() {
        var novo := new No(valor);
        cabeca := novo;
        Nodes := [novo];
      } else {
        var atual := cabeca;
        ghost var k := 0;
        while atual.proximo != null
          invariant 0 <= k < |Nodes| && atual == Nodes[k]
          invariant atual.proximo == if k < |Nodes| - 1 then Nodes[k + 1] else null
          decreases |Nodes| - k
        {
          atual := atual.proximo;
          k := k + 1;
        }
        assert forall i :: 0 <= i < |Nodes| - 1 ==> Nodes[i] != atual;
        var novo := new No(valor);
        atual.proximo := novo;
        Nodes := Nodes + [novo];
      }
      tamanho := tamanho + 1;
      Contents := Contents + [valor];
      Repr := Repr + {Nodes[|Nodes| - 1]};
    }

    /** Unlinks the first node holding `valor` and answers whether there was one; when
        there is none, the list is left as it was. */
    method Remover(valor: T) returns (r: bool)
      requires Valid()
      modifies Repr
      ensures Valid() && Repr == old(Repr)
      ensures r <==> valor in old(Contents)
      ensures Contents == SemPrimeiro(old(Contents), valor)
      ensures tamanho == if r then old(tamanho) - 1 else old(tamanho)
    {
      if EstaVazia() {
        return false;
      }
      if cabeca.valor == valor {
        cabeca := cabeca.proximo;
        tamanho := tamanho - 1;
        Contents := Contents[1..];
        Nodes := Nodes[1..];
        return true;
      }
      var atual := cabeca;
      ghost var k := 0;
      while atual.proximo != null && atual.proximo.valor != valor
        invariant 0 <= k < |Nodes| && atual == Nodes[k]
        invariant atual.proximo == if k < |Nodes| - 1 then Nodes[k + 1] else null
        invariant valor !in Contents[..k + 1]
        decreases |Nodes| - k
      {
        atual := atual.proximo;
        k := k + 1;
        assert Contents[..k + 1] == Contents[..k] + [Contents[k]];
      }
      if atual.proximo != null {
        SemPrimeiroEm(Contents, valor, k + 1);
        DesligarProximo(atual, k);
        return true;
      }
      assert Contents[..k + 1] == Contents;
      SemPrimeiroAusente(Contents, valor);
      return false;
    }

    /** Unlinks the node after `atual`, node `k` of the chain. */
    method DesligarProximo(atual: No<T>, ghost k: nat)
      requires Valid() && k + 1 < |Nodes| && atual == Nodes[k]
      modifies Repr
      ensures Valid() && Repr == old(Repr)
      ensures Contents == old(Contents)[..k + 1] + old(Contents)[k + 2..]
      ensures tamanho == old(tamanho) - 1
    {
      ghost var antes, valores := Nodes, Contents;
      assert forall i :: 0 <= i < |antes| && i != k ==> antes[i] != atual;
      assert atual.proximo == antes[k + 1];
      assert antes[k + 1].proximo == if k + 2 < |antes| then antes[k + 2] else null;
      atual.proximo := atual.proximo.proximo;
      tamanho := tamanho - 1;
      Contents := Contents[..k + 1] + Contents[k + 2..];
      Nodes := antes[..k + 1] + antes[k + 2..];
      assert forall i :: 0 <= i < |antes| - 1 && i != k ==> antes[i].proximo == antes[i + 1];
      RemocaoEncadeada(antes, k);
      RemocaoValores(antes, valores, k);
      RemocaoDistinta(antes, k, Repr);
    }

    /** The walk of `imprimir`: the values from `cabeca` to the last node. */
    method Elementos() returns (elementos: seq<T>)
      requires Valid()
      ensures elementos == Contents
    {
      var atual := cabeca;
      elementos := [];
      while atual != null
        invariant 0 <= |elementos| <= |Nodes|
        invariant elementos == Contents[..|elementos|]
        invariant atual == if |elementos| < |Nodes| then Nodes[|elementos|] else null
        decreases |Nodes| - |elementos|
      {
        elementos := elementos + [atual.valor];
        atual := atual.proximo;
      }
      assert Contents[..|elementos|] == Contents;
    }
  }

  /** The first phase of `demonstrar_lista_encadeada`: appending 10, 20, 30, 40 and 50. */
  method ListaDemonstrada() returns (lista: ListaEncadeada<int>)
    ensures fresh(lista) && lista.Valid() && fresh(lista.Repr)
    ensures lista.Contents == [10, 20, 30, 40, 50]
  {
    lista := new ListaEncadeada<int>();
    for i := 1 to 6
      invariant lista.Valid() && fresh(lista.Repr)
      invariant |lista.Contents| == i - 1
      invariant forall j :: 0 <= j < i - 1 ==> lista.Contents[j] == (j + 1) * 10
    {
      lista.InserirFim(i * 10);
    }
  }

  /** Five distinct values a, b, c, d, e: removing c, then a, then e, each found, leaves b, d. */
  lemma RemocoesSucessivas(a: int, b: int, c: int, d: int, e: int)
    requires a != c && b != c && a != b && a != d && b != d && c != d && e != a && e != b && e != c && e != d
    ensures c in [a, b, c, d, e] && SemPrimeiro([a, b, c, d, e], c) == [a, b, d, e]
    ensures a in [a, b, d, e] && SemPrimeiro([a, b, d, e], a) == [b, d, e]
    ensures e in [b, d, e] && SemPrimeiro([b, d, e], e) == [b, d]
  {
    assert [a, b, c, d, e][..2] == [a, b] && [a, b, c, d, e][3..] == [d, e];
    SemPrimeiroEm([a, b, c, d, e], c, 2);
    SemPrimeiroEm([a, b, d, e], a, 0);
    assert [b, d, e][..2] == [b, d];
    SemPrimeiroEm([b, d, e], e, 2);
  }

  /** The removals of `demonstrar_lista_encadeada` on a list holding five distinct values
      a, b, c, d, e: removing c, then a, then e finds each of them and leaves b, d. */
  method RemocoesDemonstradas(lista: ListaEncadeada<int>, a: int, b: int, c: int, d: int, e: int)
    returns (removidos: seq<bool>)
    requires lista.Valid() && lista.Contents == [a, b, c, d, e]
    requires a != c && b != c && a != b && a != d && b != d && c != d && e != a && e != b && e != c && e != d
    modifies lista.Repr
    ensures lista.Valid() && lista.Contents == [b, d]
    ensures removidos == [true, true, true]
  {
    RemocoesSucessivas(a, b, c, d, e);
    var r1 := lista.Remover(c);
    var r2 := lista.Remover(a);
    var r3 := lista.Remover(e);
    removidos := [r1, r2, r3];
  }

  /** The trace of `demonstrar_lista_encadeada`: appending 10, 20, 30, 40 and 50, then
      removing 30, 10 and 50. */
  method DemonstrarListaEncadeada() returns (removidos: seq<bool>, restantes: seq<int>)
    ensures removidos == [true, true, true]
    ensures restantes == [20, 40]
  {
    var lista := ListaDemonstrada();
    removidos := RemocoesDemonstradas(lista, 10, 20, 30, 40, 50);
    restantes := lista.Elementos();
  }

  /** Unlinking node `k + 1` keeps the chain linked. */
  lemma RemocaoEncadeada<T>(antes: seq<No<T>>, k: nat)
    requires k + 1 < |antes|
    requires forall i :: 0 <= i < |antes| - 1 && i != k ==> antes[i].proximo == antes[i + 1]
    requires antes[k].proximo == if k + 2 < |antes| then antes[k + 2] else null
    ensures var nodes := antes[..k + 1] + antes[k + 2..];
            forall i :: 0 <= i < |nodes| - 1 ==> nodes[i].proximo == nodes[i + 1]
  {
    var nodes := antes[..k + 1] + antes[k + 2..];
    forall i | 0 <= i < |nodes| - 1
      ensures nodes[i].proximo == nodes[i + 1]
    {
      if i < k {
        assert nodes[i] == antes[i] && nodes[i + 1] == antes[i + 1];
      } else if i > k {
        assert nodes[i] == antes[i + 1] && nodes[i + 1] == antes[i + 2];
      }
    }
  }

  /** Unlinking node `k + 1` keeps each remaining node paired with its value. */
  lemma RemocaoValores<T>(antes: seq<No<T>>, valores: seq<T>, k: nat)
    requires k + 1 < |antes| == |valores|
    requires forall i :: 0 <= i < |antes| ==> antes[i].valor == valores[i]
    ensures var nodes := antes[..k + 1] + antes[k + 2..];
            forall i :: 0 <= i < |nodes| ==> nodes[i].valor == (valores[..k + 1] + valores[k + 2..])[i]
  {
  }

  /** Unlinking node `k + 1` keeps the remaining nodes distinct and inside the footprint. */
  lemma RemocaoDistinta<T>(antes: seq<No<T>>, k: nat, repr: set<object>)
    requires k + 1 < |antes|
    requires forall i :: 0 <= i < |antes| ==> antes[i] in repr
    requires forall i, j :: 0 <= i < j < |antes| ==> antes[i] != antes[j]
    ensures var nodes := antes[..k + 1] + antes[k + 2..];
            && (forall i :: 0 <= i < |nodes| ==> nodes[i] in repr)
            && (forall i, j :: 0 <= i < j < |nodes| ==> nodes[i] != nodes[j])
  {
    var nodes := antes[..k + 1] + antes[k + 2..];
    assert forall i :: 0 <= i < |nodes| ==> nodes[i] == if i <= k then antes[i] else antes[i + 1];
  }
}
