/** Model of the hospital triage queue of solucao_pratica.py: patients kept in a list sorted
    by (prioridade, hora_chegada), inserted by a linear scan and served from the front. */
module SolucaoPratica {
  import opened Outcomes

  /** A patient; `prioridade` 1 is the most urgent and `horaChegada` breaks ties. Both are
      supplied by the caller. */
  datatype Paciente = Paciente(nome: string, prioridade: int, horaChegada: int)

  /** `a` has a strictly smaller key (prioridade, horaChegada) than `b`: the test of the
      scan in `inserir`. */
  predicate Antes(a: Paciente, b: Paciente)
    ensures Antes(a, b) ==> a.prioridade <= b.prioridade
  {
    a.prioridade < b.prioridade || (a.prioridade == b.prioridade && a.horaChegada < b.horaChegada)
  }

  /** The scan test is a strict order: no patient is before itself, and of two patients at
      most one is before the other, so the scan stops at an equal key. */
  lemma AntesEstrita(a: Paciente, b: Paciente)
    ensures !Antes(a, a)
    ensures Antes(a, b) ==> !Antes(b, a)
  {
  }

  /** No patient has a strictly smaller key than one placed before it. */
  predicate Ordenada(s: seq<Paciente>) {
    forall i, j :: 0 <= i < j < |s| ==> !Antes(s[j], s[i])
  }

  /** The list after `inserir(p)`: `p` goes in front of the first patient whose key is not
      strictly smaller than its own. */
  function Inserida(s: seq<Paciente>, p: Paciente): (r: seq<Paciente>)
    ensures |r| == |s| + 1
    ensures p in r
  {
    if s == [] || !Antes(s[0], p) then [p] + s
    else [s[0]] + Inserida(s[1..], p)
  }

  /** Where the scan stops: every patient before `k` is strictly smaller and the one at `k`,
      if any, is not; `p` is put at `k` and everyone else keeps their order. */
  lemma {:induction false} InseridaEm(s: seq<Paciente>, p: Paciente, k: nat)
    requires k <= |s|
    requires forall i :: 0 <= i < k ==> Antes(s[i], p)
    requires k < |s| ==> !Antes(s[k], p)
    ensures Inserida(s, p) == s[..k] + [p] + s[k..]
    decreases k
  {
    if k > 0 {
      InseridaEm(s[1..], p, k - 1);
      assert s[..k] == [s[0]] + s[1..][..k - 1];
    } else {
      assert s[..0] == [] && s[0..] == s;
    }
  }

  /** On an exact tie of keys the new patient is served before the one already waiting. */
  lemma EmpateVemAntes(s: seq<Paciente>, p: Paciente, k: nat)
    requires k < |s|
    requires forall i :: 0 <= i < k ==> Antes(s[i], p)
    requires s[k].prioridade == p.prioridade && s[k].horaChegada == p.horaChegada
    ensures var t := Inserida(s, p); |t| == |s| + 1 && t[k] == p && t[k + 1] == s[k]
  {
    InseridaEm(s, p, k);
  }

  /** `inserir` adds exactly `p` and loses nobody. */
  lemma {:induction false} InseridaPermutacao(s: seq<Paciente>, p: Paciente)
    ensures |Inserida(s, p)| == |s| + 1
    ensures multiset(Inserida(s, p)) == multiset(s) + multiset{p}
  {
    if s != [] && Antes(s[0], p) {
      InseridaPermutacao(s[1..], p);
      assert s == [s[0]] + s[1..];
    }
  }

  /** A sorted list stays sorted after `inserir`. */
  lemma {:induction false} InseridaOrdenada(s: seq<Paciente>, p: Paciente)
    requires Ordenada(s)
    ensures Ordenada(Inserida(s, p))
  {
    if s != [] && Antes(s[0], p) {
      var t := Inserida(s[1..], p);
      InseridaOrdenada(s[1..], p);
      InseridaPermutacao(s[1..], p);
      forall j | 0 <= j < |t|
        ensures !Antes(t[j], s[0])
      {
        assert t[j] in multiset(t);
        if t[j] != p {
          assert t[j] in s[1..];
          var i :| 0 <= i < |s[1..]| && s[1..][i] == t[j];
          assert s[i + 1] == t[j];
        }
      }
      assert Inserida(s, p) == [s[0]] + t;
    }
  }

  /** The first patient of a sorted list has a key no other patient beats. */
  lemma PrimeiroEMinimo(s: seq<Paciente>)
    requires Ordenada(s) && s != []
    ensures forall i :: 0 <= i < |s| ==> !Antes(s[i], s[0])
  {
    forall i | 0 < i < |s|
      ensures !Antes(s[i], s[0])
    {
    }
  }

  class FilaPrioridade {
    /** The waiting patients, next to be served first. */
    var fila: seq<Paciente>

    /** The list is kept sorted by key. */
    ghost predicate Valid()
      reads this
    {
      Ordenada(fila)
    }

    constructor ()
      ensures Valid() && fila == []
    {
      fila := [];
    }

    function EstaVazia(): (r: bool)
      reads this
      ensures r <==> fila == []
    {
      |fila| == 0
    }

    /** Scans for the first patient not strictly smaller than `paciente` and inserts it there. */
    method Inserir(paciente: Paciente)
      requires Valid()
      modifies this
      ensures Valid()
      ensures fila == Inserida(old(fila), paciente)
      ensures multiset(fila) == multiset(old(fila)) + multiset{paciente}
    {
      var posicao := 0;
      while posicao < |fila| && Antes(fila[posicao], paciente)
        invariant 0 <= posicao <= |fila|
        invariant forall i :: 0 <= i < posicao ==> Antes(fila[i], paciente)
        decreases |fila| - posicao
      {
        posicao := posicao + 1;
      }
      InseridaEm(fila, paciente, posicao);
      InseridaOrdenada(fila, paciente);
      InseridaPermutacao(fila, paciente);
      fila := fila[..posicao] + [paciente] + fila[posicao..];
    }

    /** The next patient, without removing them: None on an empty queue, otherwise the
        front patient, whose key no waiting patient beats. */
    function ProximoPaciente(): (r: Option<Paciente>)
      reads this
      requires Valid()
      ensures r.None? <==> fila == []
      ensures r.Some? ==> r.value == fila[0] && forall i :: 0 <= i < |fila| ==> !Antes(fila[i], r.value)
    {
      if EstaVazia() then None
      else
        PrimeiroEMinimo(fila);
        Some(fila[0])
    }

    /** Removes and returns the front patient; on an empty queue returns None and changes nothing. */
    method Atender() returns (r: Option<Paciente>)
      requires Valid()
      modifies this
      ensures Valid()
      ensures old(fila) == [] ==> r == None && fila == old(fila)
      ensures old(fila) != [] ==> r == Some(old(fila)[0]) && fila == old(fila)[1..]
    {
      if EstaVazia() {
        return None;
      }
      r := Some(fila[0]);
      fila := fila[1..];
    }
  }

  /** The arrivals of the demonstration, in arrival order. */
  function Chegadas(): seq<Paciente> {
    [Paciente("João", 3, 1), Paciente("Maria", 1, 2), Paciente("Pedro", 2, 3),
     Paciente("Ana", 1, 4), Paciente("Carlos", 3, 5)]
  }

  /** Five arrivals with the keys of the demonstration are ordered m, a, p, j, c. */
  lemma {:induction false} OrdemDasChegadas(j: Paciente, m: Paciente, p: Paciente, a: Paciente, c: Paciente)
    requires j.prioridade == 3 && j.horaChegada == 1 && m.prioridade == 1 && m.horaChegada == 2
    requires p.prioridade == 2 && p.horaChegada == 3 && a.prioridade == 1 && a.horaChegada == 4
    requires c.prioridade == 3 && c.horaChegada == 5
    ensures Inserida(Inserida(Inserida(Inserida(Inserida([], j), m), p), a), c) == [m, a, p, j, c]
  {
    assert Inserida([], j) == [j];
    InseridaEm([j], m, 0);
    assert Inserida([j], m) == [m, j];
    InseridaEm([m, j], p, 1);
    assert Inserida([m, j], p) == [m, p, j];
    InseridaEm([m, p, j], a, 1);
    assert Inserida([m, p, j], a) == [m, a, p, j];
    InseridaEm([m, a, p, j], c, 4);
    assert [m, a, p, j][..4] == [m, a, p, j] && [m, a, p, j][4..] == [];
  }

  /** The queue after the five arrivals of the demonstration: Maria, Ana, Pedro, João, Carlos. */
  method ChegadasDemonstradas() returns (hospital: FilaPrioridade)
    ensures fresh(hospital) && hospital.Valid()
    ensures var c := Chegadas(); hospital.fila == [c[1], c[3], c[2], c[0], c[4]]
  {
    var c := Chegadas();
    hospital := new FilaPrioridade();
    hospital.Inserir(c[0]);
    hospital.Inserir(c[1]);
    hospital.Inserir(c[2]);
    hospital.Inserir(c[3]);
    hospital.Inserir(c[4]);
    OrdemDasChegadas(c[0], c[1], c[2], c[3], c[4]);
  }

  /** The demonstration: five arrivals, then five rounds of looking at the next patient and
      serving them; the patients are served in the order Maria, Ana, Pedro, João, Carlos. */
  method DemonstrarAtendimento() returns (atendidos: seq<string>)
    ensures atendidos == ["Maria", "Ana", "Pedro", "João", "Carlos"]
  {
    var hospital := ChegadasDemonstradas();
    ghost var esperado := hospital.fila;
    atendidos := [];
    for i := 0 to 5
      invariant hospital.Valid()
      invariant hospital.fila == esperado[i..]
      invariant |atendidos| == i
      invariant forall j :: 0 <= j < i ==> atendidos[j] == esperado[j].nome
    {
      var proximo := hospital.ProximoPaciente();
      if proximo.Some? {
        var atendido := hospital.Atender();
        atendidos := atendidos + [atendido.value.nome];
      }
    }
  }
}
