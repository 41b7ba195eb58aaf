/** Model of the four frequency-counting routines of Definicao-Importancia/exemplo_performance.py:
    parallel lists with a linear search, a run-length pass over the sorted input, a dict and a
    defaultdict. Each is proved against one reference: how many times a value occurs in the
    input, `multiset(numeros)[x]`. */
module Contagem {
  import opened Outcomes

  // ---------------------------------------------------------------------------
  // Reference definitions.
  // ---------------------------------------------------------------------------

  /** The sum of a list of counts. */
  function Soma(s: seq<int>): int {
    if s == [] then 0 else Soma(s[..|s| - 1]) + s[|s| - 1]
  }

  predicate SemRepeticao(d: seq<int>) {
    forall i, j :: 0 <= i < j < |d| ==> d[i] != d[j]
  }

  /** The distinct values of `s`, each at the place of its first occurrence. */
  function Distintos(s: seq<int>): seq<int> {
    if s == [] then []
    else
      var d := Distintos(s[..|s| - 1]);
      if s[|s| - 1] in d then d else d + [s[|s| - 1]]
  }

  /** Every value of `s` with the number of times it occurs. */
  function Frequencias(s: seq<int>): map<int, int> {
    map x | x in s :: multiset(s)[x]
  }

  /** The counts of `m` taken in the order of `chaves`, summed. */
  function SomaNaOrdem(m: map<int, int>, chaves: seq<int>): int
    requires forall i :: 0 <= i < |chaves| ==> chaves[i] in m
  {
    if chaves == [] then 0
    else SomaNaOrdem(m, chaves[..|chaves| - 1]) + m[chaves[|chaves| - 1]]
  }

  predicate Ordenada(s: seq<int>) {
    forall i, j :: 0 <= i < j < |s| ==> s[i] <= s[j]
  }

  predicate Crescente(s: seq<int>) {
    forall i, j :: 0 <= i < j < |s| ==> s[i] < s[j]
  }

  /** Inserts `x` in front of the first element not smaller than it. */
  function InsereOrdenado(x: int, s: seq<int>): seq<int> {
    if s == [] || x <= s[0] then [x] + s else [s[0]] + InsereOrdenado(x, s[1..])
  }

  /** An insertion sort, standing for Python's `sorted`. */
  function Ordenacao(s: seq<int>): seq<int> {
    if s == [] then [] else InsereOrdenado(s[0], Ordenacao(s[1..]))
  }

  // ---------------------------------------------------------------------------
  // Properties of the reference definitions.
  // ---------------------------------------------------------------------------

  lemma {:induction false} SomaAtualiza(s: seq<int>, i: nat, v: int)
    requires i < |s|
    ensures Soma(s[i := v]) == Soma(s) - s[i] + v
  {
    var t := s[i := v];
    if i < |s| - 1 {
      assert t[..|t| - 1] == s[..|s| - 1][i := v];
      SomaAtualiza(s[..|s| - 1], i, v);
    } else {
      assert t[..|t| - 1] == s[..|s| - 1];
    }
  }

  lemma SomaAcrescenta(s: seq<int>, v: int)
    ensures Soma(s + [v]) == Soma(s) + v
  {
    assert (s + [v])[..|s|] == s;
  }

  /** The distinct values are distinct and are exactly the values of `s`. */
  lemma {:induction false} DistintosPropriedades(s: seq<int>)
    ensures SemRepeticao(Distintos(s))
    ensures forall x :: x in Distintos(s) <==> x in s
  {
    if s != [] {
      var p := s[..|s| - 1];
      DistintosPropriedades(p);
      assert s == p + [s[|s| - 1]];
    }
  }

  /** First-occurrence order: the distinct values of a prefix of `s` start the distinct
      values of `s`. */
  lemma {:induction false} DistintosPrefixo(s: seq<int>, k: nat)
    requires k <= |s|
    ensures Distintos(s[..k]) <= Distintos(s)
    decreases |s|
  {
    if k < |s| {
      var p := s[..|s| - 1];
      assert s[..k] == p[..k];
      DistintosPrefixo(p, k);
    } else {
      assert s[..k] == s;
    }
  }

  /** Counting one more value `x`. */
  lemma FrequenciasAcrescenta(s: seq<int>, x: int)
    ensures Frequencias(s + [x]) ==
      if x in s then Frequencias(s)[x := Frequencias(s)[x] + 1] else Frequencias(s)[x := 1]
  {
    assert multiset(s + [x]) == multiset(s) + multiset{x};
    assert forall y :: y in s + [x] <==> y in s || y == x;
  }

  lemma {:induction false} SomaNaOrdemFora(m: map<int, int>, d: seq<int>, x: int, v: int)
    requires forall i :: 0 <= i < |d| ==> d[i] in m
    requires x !in d
    ensures SomaNaOrdem(m[x := v], d) == SomaNaOrdem(m, d)
  {
    if d != [] {
      assert d[|d| - 1] in d;
      SomaNaOrdemFora(m, d[..|d| - 1], x, v);
    }
  }

  lemma {:induction false} SomaNaOrdemAtualiza(m: map<int, int>, d: seq<int>, x: int, v: int)
    requires forall i :: 0 <= i < |d| ==> d[i] in m
    requires SemRepeticao(d) && x in d
    ensures SomaNaOrdem(m[x := v], d) == SomaNaOrdem(m, d) - m[x] + v
  {
    var p := d[..|d| - 1];
    assert forall c :: c in p ==> c in d;
    if d[|d| - 1] == x {
      assert x !in p;
      SomaNaOrdemFora(m, p, x, v);
    } else {
      assert x in p;
      SomaNaOrdemAtualiza(m, p, x, v);
    }
  }

  /** `contagem[i]` is the number of occurrences of `unicos[i]` in `s`. */
  predicate Conta(unicos: seq<int>, contagem: seq<int>, s: seq<int>) {
    |contagem| == |unicos| && forall i :: 0 <= i < |unicos| ==> contagem[i] == multiset(s)[unicos[i]]
  }

  /** A value not seen before starts a new count of 1. */
  lemma ContaNovo(unicos: seq<int>, contagem: seq<int>, s: seq<int>, x: int)
    requires Conta(unicos, contagem, s) && x !in s && x !in unicos
    ensures Conta(unicos + [x], contagem + [1], s + [x])
  {
    assert multiset(s + [x]) == multiset(s) + multiset{x};
    var u, c := unicos + [x], contagem + [1];
    forall i | 0 <= i < |u|
      ensures c[i] == multiset(s + [x])[u[i]]
    {
      if i < |unicos| {
        assert u[i] == unicos[i] && c[i] == contagem[i] && unicos[i] != x;
      } else {
        assert multiset(s)[x] == 0;
      }
    }
  }

  /** A value seen before, listed only at `j`, adds 1 to count `j`. */
  lemma ContaRepetido(unicos: seq<int>, contagem: seq<int>, s: seq<int>, x: int, j: nat)
    requires Conta(unicos, contagem, s) && j < |unicos| && unicos[j] == x
    requires forall i :: 0 <= i < |unicos| && i != j ==> unicos[i] != x
    ensures Conta(unicos, contagem[j := contagem[j] + 1], s + [x])
  {
    assert multiset(s + [x]) == multiset(s) + multiset{x};
  }

  lemma CrescenteAcrescenta(u: seq<int>, x: int)
    requires Crescente(u) && (u != [] ==> u[|u| - 1] < x)
    ensures Crescente(u + [x])
  {
    var v := u + [x];
    forall i, j | 0 <= i < j < |v|
      ensures v[i] < v[j]
    {
      if j == |u| && i < |u| - 1 {
        assert u[i] < u[|u| - 1];
      }
    }
  }

  /** In a sorted list, everything before a value that differs from its predecessor is smaller. */
  lemma MenoresAntes(o: seq<int>, k: nat)
    requires Ordenada(o) && k < |o| && (k > 0 ==> o[k - 1] != o[k])
    ensures forall x :: x in o[..k] ==> x < o[k]
  {
    forall x | x in o[..k]
      ensures x < o[k]
    {
      var i :| 0 <= i < k && o[i] == x;
      assert o[i] <= o[k - 1];
    }
  }

  /** The counts of the map, one per distinct value, add up to the length of the input. */
  lemma {:induction false} FrequenciasSomam(s: seq<int>)
    ensures forall i :: 0 <= i < |Distintos(s)| ==> Distintos(s)[i] in Frequencias(s)
    ensures SomaNaOrdem(Frequencias(s), Distintos(s)) == |s|
  {
    DistintosPropriedades(s);
    if s != [] {
      var p, x := s[..|s| - 1], s[|s| - 1];
      assert s == p + [x];
      FrequenciasSomam(p);
      DistintosPropriedades(p);
      FrequenciasAcrescenta(p, x);
      var m, d := Frequencias(p), Distintos(p);
      if x in p {
        SomaNaOrdemAtualiza(m, d, x, m[x] + 1);
      } else {
        SomaNaOrdemFora(m, d, x, 1);
        assert (d + [x])[..|d|] == d;
      }
    }
  }

  lemma {:induction false} InsereOrdenadoPermutacao(x: int, s: seq<int>)
    ensures multiset(InsereOrdenado(x, s)) == multiset(s) + multiset{x}
  {
    if s != [] && x > s[0] {
      InsereOrdenadoPermutacao(x, s[1..]);
      assert s == [s[0]] + s[1..];
    }
  }

  lemma {:induction false} InsereOrdenadoOrdenada(x: int, s: seq<int>)
    requires Ordenada(s)
    ensures Ordenada(InsereOrdenado(x, s))
  {
    if s != [] && x > s[0] {
      InsereOrdenadoOrdenada(x, s[1..]);
      InsereOrdenadoPermutacao(x, s[1..]);
      var t := InsereOrdenado(x, s[1..]);
      forall j | 0 <= j < |t|
        ensures s[0] <= t[j]
      {
        assert t[j] in multiset(t);
        if t[j] != x {
          assert t[j] in s[1..];
        }
      }
      var r := [s[0]] + t;
      forall i, j | 0 <= i < j < |r|
        ensures r[i] <= r[j]
      {
        if i > 0 {
          assert r[i] == t[i - 1] && r[j] == t[j - 1];
        }
      }
    }
  }

  /** `Ordenacao` gives a sorted permutation of its input. */
  lemma {:induction false} OrdenacaoPropriedades(s: seq<int>)
    ensures Ordenada(Ordenacao(s))
    ensures multiset(Ordenacao(s)) == multiset(s)
  {
    if s != [] {
      OrdenacaoPropriedades(s[1..]);
      InsereOrdenadoOrdenada(s[0], Ordenacao(s[1..]));
      InsereOrdenadoPermutacao(s[0], Ordenacao(s[1..]));
      assert s == [s[0]] + s[1..];
    }
  }

  // ---------------------------------------------------------------------------
  // The four routines.
  // ---------------------------------------------------------------------------

  /** `list.index`: the first position of `x` in `s`. */
  method Indice(s: seq<int>, x: int) returns (i: nat)
    requires x in s
    ensures i < |s| && s[i] == x && x !in s[..i]
  {
    i := 0;
    while s[i] != x
      invariant i < |s| && x !in s[..i] && x in s[i..]
      decreases |s| - i
    {
      assert s[i..] == [s[i]] + s[i + 1..];
      i := i + 1;
    }
  }

  /** Parallel lists `elementos_unicos`/`contagem`: each value of the input once, in
      first-occurrence order, with the number of times it occurs. */
  method ContagemComLista(numeros: seq<int>) returns (unicos: seq<int>, contagem: seq<int>)
    ensures unicos == Distintos(numeros)
    ensures SemRepeticao(unicos) && forall x :: x in unicos <==> x in numeros
    ensures |contagem| == |unicos|
    ensures forall i :: 0 <= i < |unicos| ==> contagem[i] == multiset(numeros)[unicos[i]]
    ensures Soma(contagem) == |numeros|
  {
    unicos, contagem := [], [];
    for k := 0 to |numeros|
      invariant unicos == Distintos(numeros[..k])
      invariant SemRepeticao(unicos) && forall x :: x in unicos <==> x in numeros[..k]
      invariant Conta(unicos, contagem, numeros[..k])
      invariant Soma(contagem) == k
    {
      var num := numeros[k];
      assert numeros[..k + 1] == numeros[..k] + [num];
      assert numeros[..k + 1][..k] == numeros[..k];
      if num !in unicos {
        ContaNovo(unicos, contagem, numeros[..k], num);
        SomaAcrescenta(contagem, 1);
        unicos := unicos + [num];
        contagem := contagem + [1];
      } else {
        var indice := Indice(unicos, num);
        ContaRepetido(unicos, contagem, numeros[..k], num, indice);
        SomaAtualiza(contagem, indice, contagem[indice] + 1);
        contagem := contagem[indice := contagem[indice] + 1];
      }
    }
    assert numeros[..|numeros|] == numeros;
  }

  /** Run-length counting over the sorted input: strictly increasing values, each with the
      number of times it occurs. */
  method ContagemComListaOrdenada(numeros: seq<int>) returns (unicos: seq<int>, contagem: seq<int>)
    ensures Crescente(unicos) && forall x :: x in unicos <==> x in numeros
    ensures |contagem| == |unicos|
    ensures forall i :: 0 <= i < |unicos| ==> contagem[i] == multiset(numeros)[unicos[i]]
    ensures Soma(contagem) == |numeros|
  {
    var ordenados := Ordenacao(numeros);
    OrdenacaoPropriedades(numeros);
    unicos, contagem := ContarOrdenados(ordenados);
    assert forall x :: x in numeros <==> x in multiset(ordenados);
  }

  /** What the run-length pass has built after the first `k` sorted values. */
  ghost predicate ContagemParcial(o: seq<int>, k: nat, unicos: seq<int>, contagem: seq<int>)
    requires k <= |o|
  {
    && Crescente(unicos)
    && (k == 0 ==> unicos == [])
    && (k > 0 ==> unicos != [] && unicos[|unicos| - 1] == o[k - 1])
    && (forall x :: x in unicos <==> x in o[..k])
    && Conta(unicos, contagem, o[..k])
    && Soma(contagem) == k
  }

  /** A sorted value that differs from the one before it opens a new entry. */
  lemma PassoNovo(o: seq<int>, k: nat, unicos: seq<int>, contagem: seq<int>)
    requires Ordenada(o) && k < |o| && (k > 0 ==> o[k - 1] != o[k])
    requires ContagemParcial(o, k, unicos, contagem)
    ensures ContagemParcial(o, k + 1, unicos + [o[k]], contagem + [1])
  {
    assert o[..k + 1] == o[..k] + [o[k]];
    MenoresAntes(o, k);
    ContaNovo(unicos, contagem, o[..k], o[k]);
    CrescenteAcrescenta(unicos, o[k]);
    SomaAcrescenta(contagem, 1);
  }

  /** A sorted value equal to the one before it adds one to the last entry. */
  lemma PassoRepetido(o: seq<int>, k: nat, unicos: seq<int>, contagem: seq<int>)
    requires 0 < k < |o| && o[k - 1] == o[k]
    requires ContagemParcial(o, k, unicos, contagem)
    ensures var ultimo := |contagem| - 1;
            ContagemParcial(o, k + 1, unicos, contagem[ultimo := contagem[ultimo] + 1])
  {
    assert o[..k + 1] == o[..k] + [o[k]];
    var ultimo := |contagem| - 1;
    ContaRepetido(unicos, contagem, o[..k], o[k], ultimo);
    SomaAtualiza(contagem, ultimo, contagem[ultimo] + 1);
  }

  /** The pass of `contagem_com_lista_ordenada` over the already sorted values: a new entry
      whenever the value differs from `atual`, otherwise one more for the last entry. */
  method ContarOrdenados(ordenados: seq<int>) returns (unicos: seq<int>, contagem: seq<int>)
    requires Ordenada(ordenados)
    ensures Crescente(unicos) && forall x :: x in unicos <==> x in ordenados
    ensures Conta(unicos, contagem, ordenados)
    ensures Soma(contagem) == |ordenados|
  {
    unicos, contagem := [], [];
    var atual: Option<int> := None;
    for k := 0 to |ordenados|
      invariant ContagemParcial(ordenados, k, unicos, contagem)
      invariant atual == if k == 0 then None else Some(ordenados[k - 1])
    {
      var num := ordenados[k];
      if atual != Some(num) {
        PassoNovo(ordenados, k, unicos, contagem);
        unicos := unicos + [num];
        contagem := contagem + [1];
        atual := Some(num);
      } else {
        PassoRepetido(ordenados, k, unicos, contagem);
        contagem := contagem[|contagem| - 1 := contagem[|contagem| - 1] + 1];
      }
    }
    assert ordenados[..|ordenados|] == ordenados;
  }

  /** A dict updated value by value: every value of the input mapped to its count. */
  method ContagemComDicionario(numeros: seq<int>) returns (contagem: map<int, int>)
    ensures contagem == Frequencias(numeros)
  {
    contagem := map[];
    for k := 0 to |numeros|
      invariant contagem == Frequencias(numeros[..k])
    {
      var num := numeros[k];
      assert numeros[..k + 1] == numeros[..k] + [num];
      FrequenciasAcrescenta(numeros[..k], num);
      if num in contagem {
        contagem := contagem[num := contagem[num] + 1];
      } else {
        contagem := contagem[num := 1];
      }
    }
    assert numeros[..|numeros|] == numeros;
  }

  /** A defaultdict(int): a missing key reads as 0 before the increment. */
  method ContagemComDefaultdict(numeros: seq<int>) returns (contagem: map<int, int>)
    ensures contagem == Frequencias(numeros)
  {
    contagem := map[];
    for k := 0 to |numeros|
      invariant contagem == Frequencias(numeros[..k])
    {
      var num := numeros[k];
      assert numeros[..k + 1] == numeros[..k] + [num];
      FrequenciasAcrescenta(numeros[..k], num);
      var anterior := if num in contagem then contagem[num] else 0;
      contagem := contagem[num := anterior + 1];
    }
    assert numeros[..|numeros|] == numeros;
  }

  /** The four routines agree: the lists hold the pairs of the dict, and the dict and the
      defaultdict give the same map. */
  method CompararContagens(numeros: seq<int>) returns (iguais: bool)
    ensures iguais
  {
    var unicos, contagem := ContagemComLista(numeros);
    var unicosOrdenados, contagemOrdenada := ContagemComListaOrdenada(numeros);
    var dicionario := ContagemComDicionario(numeros);
    var padrao := ContagemComDefaultdict(numeros);
    iguais := dicionario == padrao
      && (forall i :: 0 <= i < |unicos| ==> unicos[i] in dicionario && dicionario[unicos[i]] == contagem[i])
      && (forall i :: 0 <= i < |unicosOrdenados| ==>
            unicosOrdenados[i] in dicionario && dicionario[unicosOrdenados[i]] == contagemOrdenada[i]);
  }
}
