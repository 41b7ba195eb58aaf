/** Model of the three hand-written FIFO queues of Estruturas-Lineares/Filas/exemplo_fila.py:
    a queue over a Python list (FilaLista), a linked queue with head and tail
    references (FilaEncadeada) and a fixed-capacity ring buffer (FilaCircular). */
module Filas {
  import opened Outcomes

  /** The two exceptions the queues raise: "Fila vazia" and "Fila cheia". */
  datatype ErroFila = FilaVazia | FilaCheia

  /** `x % c` for `x` less than two laps of the ring: at most one wrap. */
  lemma ModUmaVolta(x: int, c: int)
    requires 0 < c && 0 <= x < 2 * c
    ensures x % c == if x < c then x else x - c
  {
    if c <= x {
      assert x == c * 1 + (x - c);
    }
  }

  // ---------------------------------------------------------------------------
  // FilaLista: a Python list; `enfileirar` appends, `desenfileirar` does pop(0).
  // ---------------------------------------------------------------------------

  class FilaLista<T> {
    var itens: seq<T>

    constructor ()
      ensures itens == []
    {
      itens := [];
    }

    function EstaVazia(): (r: bool)
      reads this
      ensures r <==> itens == []
    {
      |itens| == 0
    }

    method Enfileirar(item: T)
      modifies this
      ensures itens == old(itens) + [item]
    {
      itens := itens + [item];
    }

    /** Removes the first item; on an empty queue reports FilaVazia and changes nothing. */
    method Desenfileirar() returns (r: Result<T, ErroFila>)
      modifies this
      ensures old(itens) == [] ==> r == Err(FilaVazia) && itens == old(itens)
      ensures old(itens) != [] ==> r == Ok(old(itens)[0]) && itens == old(itens)[1..]
    {
      if EstaVazia() {
        return Err(FilaVazia);
      }
      r := Ok(itens[0]);
      itens := itens[1..];
    }

    function Frente(): (r: Result<T, ErroFila>)
      reads this
      ensures itens == [] ==> r == Err(FilaVazia)
      ensures itens != [] ==> r == Ok(itens[0])
    {
      if EstaVazia() then Err(FilaVazia) else Ok(itens[0])
    }

    function Tamanho(): (n: nat)
      reads this
      ensures n == |itens|
    {
      |itens|
    }
  }

  /** FIFO for FilaLista: enqueuing `xs` into a new queue and draining it yields `xs`. */
  method FilaListaFifo<T>(xs: seq<T>) returns (saida: seq<T>)
    ensures saida == xs
  {
    var fila := new FilaLista<T>();
    for i := 0 to |xs|
      invariant fila.itens == xs[..i]
    {
      fila.Enfileirar(xs[i]);
    }
    assert xs[..|xs|] == xs;
    saida := [];
    while !fila.EstaVazia()
      invariant saida + fila.itens == xs
      decreases |fila.itens|
    {
      var r := fila.Desenfileirar();
      saida := saida + [r.value];
    }
  }

  // ---------------------------------------------------------------------------
  // FilaEncadeada: a chain of nodes with `inicio`, `fim` and a size counter.
  // ---------------------------------------------------------------------------

  class No<T> {
    var valor: T
    var proximo: No?<T>

    constructor (valor: T)
      ensures this.valor == valor && proximo == null
    {
      this.valor := valor;
      proximo := null;
    }
  }

  class FilaEncadeada<T> {
    var inicio: No?<T>
    var fim: No?<T>
    var tamanho: int

    /** The queued values, front first. */
    ghost var Contents: seq<T>
    /** The chain of nodes reachable from `inicio`, in order. */
    ghost var Nodes: seq<No<T>>
    ghost var Repr: set<object>

    /** The chain from `inicio` holds Contents, ends at `fim`, and `tamanho` counts its nodes;
        `inicio` is null exactly when `fim` is. */
    ghost predicate Valid()
      reads this, Repr
    {
      && this in Repr
      && |Nodes| == |Contents| == tamanho
      && (forall i :: 0 <= i < |Nodes| ==> Nodes[i] in Repr && Nodes[i].valor == Contents[i])
      && (forall i :: 0 <= i < |Nodes| - 1 ==> Nodes[i].proximo == Nodes[i + 1])
      && (forall i, j :: 0 <= i < j < |Nodes| ==> Nodes[i] != Nodes[j])
      && (if Nodes == [] then inicio == null && fim == null
          else inicio == Nodes[0] && fim == Nodes[|Nodes| - 1] && fim.proximo == null)
    }

    constructor ()
      ensures Valid() && fresh(Repr)
      ensures Contents == []
    {
      inicio, fim, tamanho := null, null, 0;
      Contents, Nodes, Repr := [], [], {this};
    }

    function EstaVazia(): (r: bool)
      reads this, Repr
      requires Valid()
      ensures r <==> Contents == []
    {
      inicio == null
    }

    /** Links a new node after `fim`; into an empty queue the node becomes both `inicio` and `fim`. */
    method Enfileirar(item: T)
      requires Valid()
      modifies Repr
      ensures Valid() && fresh(Repr - old(Repr))
      ensures Contents == old(Contents) + [item]
      ensures tamanho == old(tamanho) + 1
      ensures old(Contents) == [] ==> inicio != null && inicio == fim
    {
      var novo := new No(item);
      if EstaVazia() {
        inicio := novo;
      } else {
        fim.proximo := novo;
      }
      fim := novo;
      tamanho := tamanho + 1;
      Contents := Contents + [item];
      Nodes := Nodes + [novo];
      Repr := Repr + {novo};
    }

    /** Unlinks the front node; on an empty queue reports FilaVazia and changes nothing. */
    method Desenfileirar() returns (r: Result<T, ErroFila>)
      requires Valid()
      modifies this
      ensures Valid() && Repr == old(Repr)
      ensures old(Contents) == [] ==> r == Err(FilaVazia) && unchanged(this)
      ensures old(Contents) != [] ==>
        && r == Ok(old(Contents)[0])
        && Contents == old(Contents)[1..]
        && tamanho == old(tamanho) - 1
    {
      if EstaVazia() {
        return Err(FilaVazia);
      }
      var valor := inicio.valor;
      inicio := inicio.proximo;
      if inicio == null {
        fim := null;
      }
      tamanho := tamanho - 1;
      Contents := Contents[1..];
      Nodes := Nodes[1..];
      r := Ok(valor);
    }

    function Frente(): (r: Result<T, ErroFila>)
      reads this, Repr
      requires Valid()
      ensures Contents == [] ==> r == Err(FilaVazia)
      ensures Contents != [] ==> r == Ok(Contents[0])
    {
      if EstaVazia() then Err(FilaVazia) else Ok(inicio.valor)
    }

    function Tamanho(): (n: int)
      reads this, Repr
      requires Valid()
      ensures n == |Contents|
    {
      tamanho
    }
  }

  /** Enqueues `xs` in order into a new FilaEncadeada. */
  method EnfileirarEncadeada<T>(xs: seq<T>) returns (fila: FilaEncadeada<T>)
    ensures fresh(fila) && fila.Valid() && fresh(fila.Repr)
    ensures fila.Contents == xs
  {
    fila := new FilaEncadeada<T>();
    for i := 0 to |xs|
      invariant fila.Valid() && fresh(fila.Repr)
      invariant fila.Contents == xs[..i]
    {
      fila.Enfileirar(xs[i]);
    }
    assert xs[..|xs|] == xs;
  }

  /** Dequeues a FilaEncadeada until it is empty, collecting the values in order. */
  method EsvaziarEncadeada<T>(fila: FilaEncadeada<T>) returns (saida: seq<T>)
    requires fila.Valid()
    modifies fila
    ensures fila.Valid() && fila.Contents == []
    ensures saida == old(fila.Contents)
  {
    saida := [];
    while !fila.EstaVazia()
      invariant fila.Valid() && fila.Repr == old(fila.Repr)
      invariant saida + fila.Contents == old(fila.Contents)
      decreases |fila.Contents|
    {
      var r := fila.Desenfileirar();
      saida := saida + [r.value];
    }
  }

  /** FIFO for FilaEncadeada: enqueuing `xs` into a new queue and draining it yields `xs`. */
  method FilaEncadeadaFifo<T>(xs: seq<T>) returns (saida: seq<T>)
    ensures saida == xs
  {
    var fila := EnfileirarEncadeada(xs);
    saida := EsvaziarEncadeada(fila);
  }

  // ---------------------------------------------------------------------------
  // FilaCircular: a fixed-capacity ring buffer over `capacidade` slots.
  // ---------------------------------------------------------------------------

  class FilaCircular<T> {
    const capacidade: nat
    /** The slots; an empty slot holds None, as the source stores None there. */
    const itens: array<Option<T>>
    var inicio: int
    var fim: int
    var tamanho: int

    /** The queued values, front first. */
    ghost var Contents: seq<T>

    /** How far slot `j` lies after `inicio`, going forward around the ring. */
    ghost function Distancia(j: int): int
      reads this
    {
      if j >= inicio then j - inicio else j - inicio + capacidade
    }

    /** The logical window is the `tamanho` slots starting at `inicio`; they hold Contents in
        order, every slot outside the window is None, and `fim` is the slot just past the window. */
    ghost predicate Valid()
      reads this, itens
    {
      && itens.Length == capacidade
      && 0 <= tamanho <= capacidade
      && |Contents| == tamanho
      && (capacidade == 0 ==> inicio == 0 && fim == 0)
      && (capacidade > 0 ==>
            && 0 <= inicio < capacidade
            && 0 <= fim < capacidade
            && fim == (inicio + tamanho) % capacidade)
      && (forall j :: 0 <= j < capacidade ==>
            itens[j] == if Distancia(j) < tamanho then Some(Contents[Distancia(j)]) else None)
    }

    constructor (capacidade: nat)
      ensures Valid() && fresh(itens)
      ensures this.capacidade == capacidade && Contents == []
      ensures inicio == 0 && fim == 0 && tamanho == 0
    {
      this.capacidade := capacidade;
      itens := new Option<T>[capacidade](_ => None);
      inicio, fim, tamanho := 0, 0, 0;
      Contents := [];
    }

    function EstaVazia(): (r: bool)
      reads this, itens
      requires Valid()
      ensures r <==> Contents == []
    {
      tamanho == 0
    }

    function EstaCheia(): (r: bool)
      reads this, itens
      requires Valid()
      ensures r <==> |Contents| == capacidade
    {
      tamanho == capacidade
    }

    /** Writes `item` at `fim` and advances `fim` around the ring; on a full buffer reports
        FilaCheia before any write. */
    method Enfileirar(item: T) returns (r: Result<(), ErroFila>)
      requires Valid()
      modifies this, itens
      ensures Valid()
      ensures old(|Contents|) == capacidade ==>
        r == Err(FilaCheia) && unchanged(this) && unchanged(itens)
      ensures old(|Contents|) < capacidade ==>
        && r == Ok(())
        && Contents == old(Contents) + [item]
        && inicio == old(inicio)
        && fim == (old(fim) + 1) % capacidade
        && tamanho == old(tamanho) + 1
    {
      if EstaCheia() {
        return Err(FilaCheia);
      }
      ModUmaVolta(inicio + tamanho, capacidade);
      itens[fim] := Some(item);
      fim := (fim + 1) % capacidade;
      ModUmaVolta(old(fim) + 1, capacidade);
      tamanho := tamanho + 1;
      Contents := Contents + [item];
      ModUmaVolta(inicio + tamanho, capacidade);
      r := Ok(());
    }

    /** Takes the value at `inicio`, resets that slot to None and advances `inicio` around the
        ring; on an empty buffer reports FilaVazia and changes nothing. */
    method Desenfileirar() returns (r: Result<T, ErroFila>)
      requires Valid()
      modifies this, itens
      ensures Valid()
      ensures old(Contents) == [] ==> r == Err(FilaVazia) && unchanged(this) && unchanged(itens)
      ensures old(Contents) != [] ==>
        && r == Ok(old(Contents)[0])
        && Contents == old(Contents)[1..]
        && itens[old(inicio)] == None
        && inicio == (old(inicio) + 1) % capacidade
        && fim == old(fim)
        && tamanho == old(tamanho) - 1
    {
      if EstaVazia() {
        return Err(FilaVazia);
      }
      assert Distancia(inicio) == 0;
      var valor := itens[inicio];
      itens[inicio] := None;
      inicio := (inicio + 1) % capacidade;
      ModUmaVolta(old(inicio) + 1, capacidade);
      tamanho := tamanho - 1;
      Contents := Contents[1..];
      ModUmaVolta(old(inicio) + old(tamanho), capacidade);
      ModUmaVolta(inicio + tamanho, capacidade);
      r := Ok(valor.value);
    }

    function Frente(): (r: Result<T, ErroFila>)
      reads this, itens
      requires Valid()
      ensures Contents == [] ==> r == Err(FilaVazia)
      ensures Contents != [] ==> r == Ok(Contents[0])
    {
      if EstaVazia() then Err(FilaVazia)
      else
        assert Distancia(inicio) == 0;
        Ok(itens[inicio].value)
    }

    function Tamanho(): (n: int)
      reads this, itens
      requires Valid()
      ensures n == |Contents|
    {
      tamanho
    }
  }

  /** The first phase of the ring-buffer demonstration: capacity 5, enqueue 1..5. */
  method EncherFilaCircular() returns (fila: FilaCircular<int>)
    ensures fresh(fila) && fresh(fila.itens) && fila.Valid() && fila.capacidade == 5
    ensures fila.Contents == [1, 2, 3, 4, 5] && fila.inicio == 0 && fila.fim == 0
  {
    fila := new FilaCircular<int>(5);
    for v := 1 to 6
      invariant fila.Valid() && fila.capacidade == 5 && fila.inicio == 0
      invariant fila.Contents == [1, 2, 3, 4, 5][..v - 1]
      invariant fila.fim == (v - 1) % 5
    {
      var ok := fila.Enfileirar(v);
    }
  }

  /** Three dequeues from the full buffer: 1, 2 and 3 come out and `inicio` reaches slot 3. */
  method RetirarTres(fila: FilaCircular<int>) returns (saida: seq<int>)
    requires fila.Valid() && fila.capacidade == 5
    requires fila.Contents == [1, 2, 3, 4, 5] && fila.inicio == 0 && fila.fim == 0
    modifies fila, fila.itens
    ensures fila.Valid() && fila.Contents == [4, 5] && fila.inicio == 3 && fila.fim == 0
    ensures saida == [1, 2, 3]
  {
    saida := [];
    for k := 0 to 3
      invariant fila.Valid() && fila.capacidade == 5 && fila.fim == 0
      invariant saida == [1, 2, 3, 4, 5][..k] && fila.Contents == [1, 2, 3, 4, 5][k..]
      invariant fila.inicio == k
    {
      var r := fila.Desenfileirar();
      saida := saida + [r.value];
    }
  }

  /** Enqueuing 6, 7 and 8 writes slots 0, 1 and 2, past the end of the array. */
  method DarAVolta(fila: FilaCircular<int>)
    requires fila.Valid() && fila.capacidade == 5
    requires fila.Contents == [4, 5] && fila.inicio == 3 && fila.fim == 0
    modifies fila, fila.itens
    ensures fila.Valid() && fila.Contents == [4, 5, 6, 7, 8] && fila.inicio == 3 && fila.fim == 3
  {
    for v := 6 to 9
      invariant fila.Valid() && fila.capacidade == 5 && fila.inicio == 3
      invariant fila.Contents == [4, 5, 6, 7, 8][..v - 4]
      invariant fila.fim == v - 6
    {
      var ok := fila.Enfileirar(v);
    }
  }

  /** Dequeues until the buffer is empty; the values come out in the order they were queued. */
  method Esvaziar(fila: FilaCircular<int>) returns (saida: seq<int>)
    requires fila.Valid()
    modifies fila, fila.itens
    ensures fila.Valid() && fila.Contents == [] && fila.fim == old(fila.fim)
    ensures saida == old(fila.Contents)
  {
    saida := [];
    while !fila.EstaVazia()
      invariant fila.Valid() && fila.fim == old(fila.fim)
      invariant saida + fila.Contents == old(fila.Contents)
      decreases |fila.Contents|
    {
      var r := fila.Desenfileirar();
      saida := saida + [r.value];
    }
  }

  /** The ring-buffer demonstration: capacity 5, enqueue 1..5, a rejected 6, three dequeues,
      enqueue 6..8 across the wrap-around, then drain. */
  method DemoFilaCircular() returns (rejeitado: Result<(), ErroFila>, saida: seq<int>, inicio: int, fim: int)
    ensures rejeitado == Err(FilaCheia)
    ensures saida == [1, 2, 3, 4, 5, 6, 7, 8]
    ensures inicio == 3 && fim == 3
  {
    var fila := EncherFilaCircular();
    rejeitado := fila.Enfileirar(6);
    saida := RetirarTres(fila);
    DarAVolta(fila);
    var resto := Esvaziar(fila);
    saida := saida + resto;
    assert fila.fim == (fila.inicio + 0) % 5;
    inicio, fim := fila.inicio, fila.fim;
  }
}
