/** Model of the singly linked list of Estruturas-Lineares/Listas/exemplo_lista.py: a chain of
    nodes from `inicio`, a counter `tamanho`, and positional insertion, removal and access
    that walk the chain with a `while` loop. */
module Listas {
  import opened Outcomes

  /** The two exceptions of the list: the generic "Lista vazia" and IndexError("Posição inválida"). */
  datatype ErroLista = ListaVazia | PosicaoInvalida

  class No<T> {
    var dado: T
    var proximo: No?<T>

    constructor (dado: T)
      ensures this.dado == dado && proximo == null
    {
      this.dado := dado;
      proximo := null;
    }
  }

  class ListaEncadeada<T(==)> {
    var inicio: No?<T>
    var tamanho: int

    /** The listed values, from `inicio` on. */
    ghost var Contents: seq<T>
    /** The chain of nodes reachable from `inicio`, in order. */
    ghost var Nodes: seq<No<T>>
    ghost var Repr: set<object>

    /** The chain from `inicio` holds Contents and `tamanho` counts its nodes. */
    ghost predicate Valid()
      reads this, Repr
    {
      && this in Repr
      && |Nodes| == |Contents| == tamanho
      && (forall i :: 0 <= i < |Nodes| ==> Nodes[i] in Repr && Nodes[i].dado == Contents[i])
      && (forall i :: 0 <= i < |Nodes| - 1 ==> Nodes[i].proximo == Nodes[i + 1])
      && (forall i, j :: 0 <= i < j < |Nodes| ==> Nodes[i] != Nodes[j])
      && (if Nodes == [] then inicio == null
          else inicio == Nodes[0] && Nodes[|Nodes| - 1].proximo == null)
    }

    constructor ()
      ensures Valid() && fresh(Repr)
      ensures Contents == []
    {
      inicio, tamanho := null, 0;
      Contents, Nodes, Repr := [], [], {this};
    }

    function EstaVazia(): (r: bool)
      reads this, Repr
      requires Valid()
      ensures r <==> Contents == []
    {
      inicio == null
    }

    /** Links a new node in front of `inicio`. */
    method InserirInicio(dado: T)
      requires Valid()
      modifies this
      ensures Valid() && fresh(Repr - old(Repr))
      ensures Contents == [dado] + old(Contents)
      ensures tamanho == old(tamanho) + 1
    {
      var novo := new No(dado);
      novo.proximo := inicio;
      inicio := novo;
      tamanho := tamanho + 1;
      Contents := [dado] + Contents;
      Nodes := [novo] + Nodes;
      Repr := Repr + {novo};
    }

    /** Walks to the last node and links a new node after it. */
    method InserirFim(dado: T)
      requires Valid()
      modifies Repr
      ensures Valid() && fresh(Repr - old(Repr))
      ensures Contents == old(Contents) + [dado]
      ensures tamanho == old(tamanho) + 1
    {
      if EstaVazia() {
        var novo := new No(dado);
        inicio := novo;
        Nodes := [novo];
      } else {
        var atual := inicio;
        ghost var k := 0;
        while atual.proximo != null
          invariant 0 <= k < |Nodes| && atual == Nodes[k]
          invariant atual.proximo == if k < |Nodes| - 1 then Nodes[k + 1] else null
          decreases |Nodes| - k
        {
          atual := atual.proximo;
          k := k + 1;
        }
        assert forall i :: 0 <= i < |Nodes| - 1 ==> Nodes[i] != atual;
        var novo := new No(dado);
        atual.proximo := novo;
        Nodes := Nodes + [novo];
      }
      tamanho := tamanho + 1;
      Contents := Contents + [dado];
      Repr := Repr + {Nodes[|Nodes| - 1]};
    }

    /** Inserts `dado` so that it becomes element `posicao`; a position outside
        `0..tamanho` reports PosicaoInvalida and changes nothing. */
    method InserirPosicao(posicao: int, dado: T) returns (r: Result<(), ErroLista>)
      requires Valid()
      modifies Repr
      ensures Valid() && fresh(Repr - old(Repr))
      ensures r.Err? <==> posicao < 0 || posicao > old(tamanho)
      ensures r.Err? ==> r.error == PosicaoInvalida && Contents == old(Contents) && tamanho == old(tamanho)
      ensures r.Ok? ==>
        && Contents == old(Contents)[..posicao] + [dado] + old(Contents)[posicao..]
        && tamanho == old(tamanho) + 1
    {
      if posicao < 0 || posicao > tamanho {
        return Err(PosicaoInvalida);
      }
      if posicao == 0 {
        InserirInicio(dado);
        return Ok(());
      }
      var atual := inicio;
      var contador := 0;
      while contador < posicao - 1
        invariant 0 <= contador <= posicao - 1 && atual == Nodes[contador]
      {
        atual := atual.proximo;
        contador := contador + 1;
      }
      LigarDepois(atual, posicao - 1, dado);
      r := Ok(());
    }

    /** Links a new node holding `dado` right after `atual`, node `k` of the chain. */
    method LigarDepois(atual: No<T>, ghost k: nat, dado: T)
      requires Valid() && k < |Nodes| && atual == Nodes[k]
      modifies Repr
      ensures Valid() && fresh(Repr - old(Repr))
      ensures Contents == old(Contents)[..k + 1] + [dado] + old(Contents)[k + 1..]
      ensures tamanho == old(tamanho) + 1
    {
      ghost var antes := Nodes;
      assert forall i :: 0 <= i < |antes| && i != k ==> antes[i] != atual;
      assert atual.proximo == if k + 1 < |antes| then antes[k + 1] else null;
      var novo := new No(dado);
      novo.proximo := atual.proximo;
      atual.proximo := novo;
      ghost var valores, repr := Contents, Repr;
      tamanho := tamanho + 1;
      Contents := Contents[..k + 1] + [dado] + Contents[k + 1..];
      Nodes := antes[..k + 1] + [novo] + antes[k + 1..];
      Repr := Repr + {novo};
      assert forall i :: 0 <= i < |antes| - 1 && i != k ==> antes[i].proximo == antes[i + 1];
      InsercaoEncadeada(antes, novo, k);
      InsercaoValores(antes, valores, novo, k);
      InsercaoDistinta(antes, novo, k, repr);
    }

    /** Unlinks the first node; on an empty list reports ListaVazia and changes nothing. */
    method RemoverInicio() returns (r: Result<T, ErroLista>)
      requires Valid()
      modifies this
      ensures Valid() && Repr == old(Repr)
      ensures old(Contents) == [] ==> r == Err(ListaVazia) && unchanged(this)
      ensures old(Contents) != [] ==>
        && r == Ok(old(Contents)[0])
        && Contents == old(Contents)[1..]
        && tamanho == old(tamanho) - 1
    {
      if EstaVazia() {
        return Err(ListaVazia);
      }
      var valor := inicio.dado;
      inicio := inicio.proximo;
      tamanho := tamanho - 1;
      Contents := Contents[1..];
      Nodes := Nodes[1..];
      r := Ok(valor);
    }

    /** Unlinks the last node, walking to the one before it; a one-node list becomes empty;
        on an empty list reports ListaVazia and changes nothing. */
    method RemoverFim() returns (r: Result<T, ErroLista>)
      requires Valid()
      modifies Repr
      ensures Valid() && Repr == old(Repr)
      ensures old(Contents) == [] ==> r == Err(ListaVazia) && Contents == old(Contents) && tamanho == old(tamanho)
      ensures old(Contents) != [] ==>
        && r == Ok(old(Contents)[|old(Contents)| - 1])
        && Contents == old(Contents)[..|old(Contents)| - 1]
        && tamanho == old(tamanho) - 1
    {
      if EstaVazia() {
        return Err(ListaVazia);
      }
      assert inicio.proximo == if |Nodes| > 1 then Nodes[1] else null;
      if inicio.proximo == null {
        assert |Nodes| == 1;
        var valor := inicio.dado;
        inicio := null;
        tamanho := tamanho - 1;
        Contents, Nodes := [], [];
        return Ok(valor);
      }
      var atual := inicio;
      ghost var k := 0;
      while atual.proximo.proximo != null
        invariant 0 <= k < |Nodes| - 1 && atual == Nodes[k] && atual.proximo == Nodes[k + 1]
        invariant atual.proximo.proximo == if k < |Nodes| - 2 then Nodes[k + 2] else null
        decreases |Nodes| - k
      {
        atual := atual.proximo;
        k := k + 1;
      }
      assert forall i :: 0 <= i < |Nodes| - 2 ==> Nodes[i] != atual;
      var valor := atual.proximo.dado;
      atual.proximo := null;
      tamanho := tamanho - 1;
      Contents := Contents[..|Contents| - 1];
      Nodes := Nodes[..|Nodes| - 1];
      r := Ok(valor);
    }

    /** Unlinks node `posicao`: an empty list reports ListaVazia first, then a position
        outside `0..tamanho-1` reports PosicaoInvalida; either way nothing changes. */
    method RemoverPosicao(posicao: int) returns (r: Result<T, ErroLista>)
      requires Valid()
      modifies Repr
      ensures Valid() && Repr == old(Repr)
      ensures old(Contents) == [] ==> r == Err(ListaVazia)
      ensures old(Contents) != [] && (posicao < 0 || posicao >= old(tamanho)) ==> r == Err(PosicaoInvalida)
      ensures r.Err? ==> Contents == old(Contents) && tamanho == old(tamanho)
      ensures 0 <= posicao < |old(Contents)| ==>
        && r == Ok(old(Contents)[posicao])
        && Contents == old(Contents)[..posicao] + old(Contents)[posicao + 1..]
        && tamanho == old(tamanho) - 1
    {
      if EstaVazia() {
        return Err(ListaVazia);
      }
      if posicao < 0 || posicao >= tamanho {
        return Err(PosicaoInvalida);
      }
      if posicao == 0 {
        r := RemoverInicio();
        return;
      }
      var atual := inicio;
      var contador := 0;
      while contador < posicao - 1
        invariant 0 <= contador <= posicao - 1 && atual == Nodes[contador]
      {
        atual := atual.proximo;
        contador := contador + 1;
      }
      var valor := DesligarProximo(atual, posicao - 1);
      r := Ok(valor);
    }

    /** Unlinks the node after `atual`, node `k` of the chain, and returns its value. */
    method DesligarProximo(atual: No<T>, ghost k: nat) returns (valor: T)
      requires Valid() && k + 1 < |Nodes| && atual == Nodes[k]
      modifies Repr
      ensures Valid() && Repr == old(Repr)
      ensures valor == old(Contents)[k + 1]
      ensures Contents == old(Contents)[..k + 1] + old(Contents)[k + 2..]
      ensures tamanho == old(tamanho) - 1
    {
      ghost var antes, valores := Nodes, Contents;
      assert forall i :: 0 <= i < |antes| && i != k ==> antes[i] != atual;
      assert atual.proximo == antes[k + 1];
      assert antes[k + 1].proximo == if k + 2 < |antes| then antes[k + 2] else null;
      valor := atual.proximo.dado;
      atual.proximo := atual.proximo.proximo;
      tamanho := tamanho - 1;
      Contents := Contents[..k + 1] + Contents[k + 2..];
      Nodes := antes[..k + 1] + antes[k + 2..];
      assert forall i :: 0 <= i < |antes| - 1 && i != k ==> antes[i].proximo == antes[i + 1];
      RemocaoEncadeada(antes, k);
      RemocaoValores(antes, valores, k);
      RemocaoDistinta(antes, k, Repr);
    }

    /** The index of the first node holding `dado`, or -1 when there is none. */
    method Buscar(dado: T) returns (posicao: int)
      requires Valid()
      ensures -1 <= posicao < |Contents|
      ensures posicao == -1 <==> dado !in Contents
      ensures posicao >= 0 ==> Contents[posicao] == dado && dado !in Contents[..posicao]
    {
      var atual := inicio;
      posicao := 0;
      while atual != null
        invariant 0 <= posicao <= |Nodes|
        invariant atual == if posicao < |Nodes| then Nodes[posicao] else null
        invariant dado !in Contents[..posicao]
        decreases |Nodes| - posicao
      {
        if atual.dado == dado {
          return;
        }
        assert Contents[..posicao + 1] == Contents[..posicao] + [Contents[posicao]];
        atual := atual.proximo;
        posicao := posicao + 1;
      }
      assert Contents[..posicao] == Contents;
      posicao := -1;
    }

    /** Element `posicao`; outside `0..tamanho-1` reports PosicaoInvalida. */
    method Obter(posicao: int) returns (r: Result<T, ErroLista>)
      requires Valid()
      ensures 0 <= posicao < |Contents| ==> r == Ok(Contents[posicao])
      ensures !(0 <= posicao < |Contents|) ==> r == Err(PosicaoInvalida)
    {
      if posicao < 0 || posicao >= tamanho {
        return Err(PosicaoInvalida);
      }
      var atual := inicio;
      var contador := 0;
      while contador < posicao
        invariant 0 <= contador <= posicao && atual == Nodes[contador]
      {
        atual := atual.proximo;
        contador := contador + 1;
      }
      r := Ok(atual.dado);
    }

    /** The walk of `imprimir`: the values from `inicio` to the last node. */
    method Elementos() returns (elementos: seq<T>)
      requires Valid()
      ensures elementos == Contents
    {
      var atual := inicio;
      elementos := [];
      while atual != null
        invariant 0 <= |elementos| <= |Nodes|
        invariant elementos == Contents[..|elementos|]
        invariant atual == if |elementos| < |Nodes| then Nodes[|elementos|] else null
        decreases |Nodes| - |elementos|
      {
        elementos := elementos + [atual.dado];
        atual := atual.proximo;
      }
      assert Contents[..|elementos|] == Contents;
    }
  }

  /** Inserting at a valid position and then removing at that position gives back `dado`
      and the original contents. */
  method InserirRemoverPosicao<T(==)>(lista: ListaEncadeada<T>, posicao: int, dado: T)
    returns (r: Result<T, ErroLista>)
    requires lista.Valid() && 0 <= posicao <= lista.tamanho
    modifies lista.Repr
    ensures lista.Valid() && fresh(lista.Repr - old(lista.Repr))
    ensures r == Ok(dado) && lista.Contents == old(lista.Contents)
  {
    var ok := lista.InserirPosicao(posicao, dado);
    r := lista.RemoverPosicao(posicao);
    assert lista.Contents == old(lista.Contents)[..posicao] + old(lista.Contents)[posicao..];
  }

  /** What `buscar` finds, `obter` returns at the same index. */
  method BuscarObter<T(==)>(lista: ListaEncadeada<T>, dado: T) returns (posicao: int, r: Result<T, ErroLista>)
    requires lista.Valid()
    ensures posicao >= 0 ==> r == Ok(dado)
    ensures posicao < 0 ==> r == Err(PosicaoInvalida) && dado !in lista.Contents
  {
    posicao := lista.Buscar(dado);
    r := lista.Obter(posicao);
  }

  /** The insertions of `demonstrar_lista_encadeada`. */
  method ListaDemonstrada() returns (lista: ListaEncadeada<int>)
    ensures lista.Valid() && fresh(lista.Repr)
    ensures lista.Contents == [10, 20, 25, 30, 40]
  {
    lista := new ListaEncadeada<int>();
    lista.InserirInicio(30);
    lista.InserirInicio(20);
    lista.InserirInicio(10);
    lista.InserirFim(40);
    assert lista.Contents == [10, 20, 30, 40];
    var ok := lista.InserirPosicao(2, 25);
    assert lista.Contents == [10, 20] + [25] + [30, 40];
  }

  /** The trace of `demonstrar_lista_encadeada`: the search, the access and the three
      removals, and what the list holds at the end. */
  method DemonstrarListaEncadeada()
    returns (posicao: int, valor: Result<int, ErroLista>, removidos: seq<Result<int, ErroLista>>, restantes: seq<int>)
    ensures posicao == 2 && valor == Ok(30)
    ensures removidos == [Ok(10), Ok(40), Ok(25)]
    ensures restantes == [20, 30]
  {
    var lista := ListaDemonstrada();
    posicao := lista.Buscar(25);
    assert 25 !in lista.Contents[..2] by { assert lista.Contents[..2] == [10, 20]; }
    valor := lista.Obter(3);
    var r1 := lista.RemoverInicio();
    ghost var c := lista.Contents;
    assert c == [20, 25, 30, 40];
    var r2 := lista.RemoverFim();
    assert lista.Contents == c[..3] == [20, 25, 30];
    c := lista.Contents;
    var r3 := lista.RemoverPosicao(1);
    assert lista.Contents == c[..1] + c[2..] == [20, 30];
    removidos := [r1, r2, r3];
    restantes := lista.Elementos();
  }

  /** Splicing `novo` in after node `k` keeps the chain linked. */
  lemma InsercaoEncadeada<T>(antes: seq<No<T>>, novo: No<T>, k: nat)
    requires k < |antes|
    requires forall i :: 0 <= i < |antes| - 1 && i != k ==> antes[i].proximo == antes[i + 1]
    requires antes[k].proximo == novo
    requires novo.proximo == if k + 1 < |antes| then antes[k + 1] else null
    ensures var nodes := antes[..k + 1] + [novo] + antes[k + 1..];
            forall i :: 0 <= i < |nodes| - 1 ==> nodes[i].proximo == nodes[i + 1]
  {
    var nodes := antes[..k + 1] + [novo] + antes[k + 1..];
    forall i | 0 <= i < |nodes| - 1
      ensures nodes[i].proximo == nodes[i + 1]
    {
      if i < k {
        assert nodes[i] == antes[i] && nodes[i + 1] == antes[i + 1];
      } else if i > k + 1 {
        assert nodes[i] == antes[i - 1] && nodes[i + 1] == antes[i];
      }
    }
  }

  /** Splicing `novo` in after node `k` keeps each node paired with its value. */
  lemma InsercaoValores<T>(antes: seq<No<T>>, valores: seq<T>, novo: No<T>, k: nat)
    requires k < |antes| == |valores|
    requires forall i :: 0 <= i < |antes| ==> antes[i].dado == valores[i]
    ensures var nodes := antes[..k + 1] + [novo] + antes[k + 1..];
            forall i :: 0 <= i < |nodes| ==>
              nodes[i].dado == (valores[..k + 1] + [novo.dado] + valores[k + 1..])[i]
  {
  }

  /** Splicing a node from outside the chain in after node `k` keeps the nodes distinct
      and inside the footprint. */
  lemma InsercaoDistinta<T>(antes: seq<No<T>>, novo: No<T>, k: nat, repr: set<object>)
    requires k < |antes|
    requires forall i :: 0 <= i < |antes| ==> antes[i] in repr
    requires novo !in repr
    requires forall i, j :: 0 <= i < j < |antes| ==> antes[i] != antes[j]
    ensures var nodes := antes[..k + 1] + [novo] + antes[k + 1..];
            && (forall i :: 0 <= i < |nodes| ==> nodes[i] in repr + {novo})
            && (forall i, j :: 0 <= i < j < |nodes| ==> nodes[i] != nodes[j])
  {
    var nodes := antes[..k + 1] + [novo] + antes[k + 1..];
    assert forall i :: 0 <= i < |nodes| ==>
      nodes[i] == if i <= k then antes[i] else if i == k + 1 then novo else antes[i - 1];
  }

  /** Unlinking node `k + 1` keeps the chain linked. */
  lemma RemocaoEncadeada<T>(antes: seq<No<T>>, k: nat)
    requires k + 1 < |antes|
    requires forall i :: 0 <= i < |antes| - 1 && i != k ==> antes[i].proximo == antes[i + 1]
    requires antes[k].proximo == if k + 2 < |antes| then antes[k + 2] else null
    ensures var nodes := antes[..k + 1] + antes[k + 2..];
            forall i :: 0 <= i < |nodes| - 1 ==> nodes[i].proximo == nodes[i + 1]
  {
    var nodes := antes[..k + 1] + antes[k + 2..];
    forall i | 0 <= i < |nodes| - 1
      ensures nodes[i].proximo == nodes[i + 1]
    {
      if i < k {
        assert nodes[i] == antes[i] && nodes[i + 1] == antes[i + 1];
      } else if i > k {
        assert nodes[i] == antes[i + 1] && nodes[i + 1] == antes[i + 2];
      }
    }
  }

  /** Unlinking node `k + 1` keeps each remaining node paired with its value. */
  lemma RemocaoValores<T>(antes: seq<No<T>>, valores: seq<T>, k: nat)
    requires k + 1 < |antes| == |valores|
    requires forall i :: 0 <= i < |antes| ==> antes[i].dado == valores[i]
    ensures var nodes := antes[..k + 1] + antes[k + 2..];
            forall i :: 0 <= i < |nodes| ==> nodes[i].dado == (valores[..k + 1] + valores[k + 2..])[i]
  {
  }

  /** Unlinking node `k + 1` keeps the remaining nodes distinct and inside the footprint. */
  lemma RemocaoDistinta<T>(antes: seq<No<T>>, k: nat, repr: set<object>)
    requires k + 1 < |antes|
    requires forall i :: 0 <= i < |antes| ==> antes[i] in repr
    requires forall i, j :: 0 <= i < j < |antes| ==> antes[i] != antes[j]
    ensures var nodes := antes[..k + 1] + antes[k + 2..];
            && (forall i :: 0 <= i < |nodes| ==> nodes[i] in repr)
            && (forall i, j :: 0 <= i < j < |nodes| ==> nodes[i] != nodes[j])
  {
    var nodes := antes[..k + 1] + antes[k + 2..];
    assert forall i :: 0 <= i < |nodes| ==> nodes[i] == if i <= k then antes[i] else antes[i + 1];
  }
}
