/** Model of the two calculator routines of Estruturas-Lineares/Pilhas/exemplo_pilha.py:
    `infixa_para_posfixa` (shunting-yard conversion of an infix string to postfix) and
    `avaliar_posfixa` (evaluation of a postfix string of single-digit operands with an
    integer stack). Each routine is a method with loops, proved equal to a left fold
    (`Posfixa`, `Avaliacao`); the folds are then related to an expression tree. */
module Expressoes {
  import opened Outcomes

  // ---------------------------------------------------------------------------
  // Characters.
  // ---------------------------------------------------------------------------

  /** `str.isalnum` on ASCII characters. */
  predicate EhAlnum(c: char)
    ensures EhAlnum(c) ==> c != '(' && c != ')' && c != ' '
  {
    ('a' <= c <= 'z') || ('A' <= c <= 'Z') || ('0' <= c <= '9')
  }

  /** `str.isdigit` on ASCII characters. */
  predicate EhDigito(c: char)
    ensures EhDigito(c) ==> EhAlnum(c)
  {
    '0' <= c <= '9'
  }

  /** `int(c)` for a digit character. */
  function ValorDigito(c: char): (v: int)
    requires EhDigito(c)
    ensures 0 <= v <= 9
  {
    c as int - '0' as int
  }

  /** The digit character of `d`. */
  function Algarismo(d: int): (c: char)
    requires 0 <= d <= 9
    ensures EhDigito(c) && ValorDigito(c) == d
  {
    (d + '0' as int) as char
  }

  /** `int(c)` is one-to-one on the ten digits: the digit character of its value is `c`. */
  lemma ValorDigitoIdaVolta(c: char)
    requires EhDigito(c)
    ensures Algarismo(ValorDigito(c)) == c
  {
  }

  /** The keys of the table `precedencia`: exactly the evaluator's operators, and never an
      operand or a parenthesis. */
  predicate NaTabela(c: char)
    ensures NaTabela(c) <==> EhOperacao(c)
    ensures NaTabela(c) ==> !EhAlnum(c) && c != '(' && c != ')'
  {
    c == '+' || c == '-' || c == '*' || c == '/' || c == '^'
  }

  /** `precedencia.get(c, 0)`. */
  function Precedencia(c: char): (p: nat)
    ensures p <= 3
    ensures p > 0 <==> NaTabela(c)
  {
    if c == '+' || c == '-' then 1
    else if c == '*' || c == '/' then 2
    else if c == '^' then 3
    else 0
  }

  /** The operands of `s`, in order. */
  function Operandos(s: seq<char>): (r: seq<char>)
    ensures |r| <= |s|
    ensures forall k :: 0 <= k < |r| ==> EhAlnum(r[k])
  {
    if s == [] then []
    else Operandos(s[..|s| - 1]) + (if EhAlnum(s[|s| - 1]) then [s[|s| - 1]] else [])
  }

  lemma {:induction false} OperandosConcat(a: seq<char>, b: seq<char>)
    ensures Operandos(a + b) == Operandos(a) + Operandos(b)
    decreases |b|
  {
    if b == [] {
      assert a + b == a;
    } else {
      assert (a + b)[..|a + b| - 1] == a + b[..|b| - 1];
      OperandosConcat(a, b[..|b| - 1]);
    }
  }

  /** `s` holds no operand. */
  predicate SemOperandos(s: seq<char>) {
    forall k :: 0 <= k < |s| ==> !EhAlnum(s[k])
  }

  /** `expressao.replace(" ", "")`. */
  function SemEspacos(s: seq<char>): seq<char> {
    if s == [] then []
    else (if s[0] == ' ' then [] else [s[0]]) + SemEspacos(s[1..])
  }

  /** Removing the spaces keeps every other character, the operands in order. */
  lemma {:induction false} SemEspacosPreserva(s: seq<char>)
    ensures ' ' !in SemEspacos(s)
    ensures forall o :: o != ' ' ==> multiset(SemEspacos(s))[o] == multiset(s)[o]
    ensures Operandos(SemEspacos(s)) == Operandos(s)
    decreases |s|
  {
    if s != [] {
      var x, t := s[0], s[1..];
      assert s == [x] + t;
      SemEspacosPreserva(t);
      OperandosConcat([x], t);
      OperandosConcat(if x == ' ' then [] else [x], SemEspacos(t));
      assert Operandos([x]) == if EhAlnum(x) then [x] else [] by {
        assert [x][..0] == [];
      }
    }
  }

  lemma {:induction false} SemEspacosConcat(a: seq<char>, b: seq<char>)
    ensures SemEspacos(a + b) == SemEspacos(a) + SemEspacos(b)
    decreases |a|
  {
    if a != [] {
      assert (a + b)[0] == a[0] && (a + b)[1..] == a[1..] + b;
      SemEspacosConcat(a[1..], b);
    } else {
      assert a + b == b;
    }
  }

  // ---------------------------------------------------------------------------
  // infixa_para_posfixa: the specification as a left fold.
  // ---------------------------------------------------------------------------

  /** The two lists of the conversion: the operator stack (top last) and the output. */
  datatype Conversao = Conversao(pilha: seq<char>, saida: seq<char>)

  /** The loop on ')': pops to the output until the top is '(', which it drops. */
  function FechaGrupo(c: Conversao): Conversao
    decreases |c.pilha|
  {
    if c.pilha == [] then c
    else if c.pilha[|c.pilha| - 1] == '(' then Conversao(c.pilha[..|c.pilha| - 1], c.saida)
    else FechaGrupo(Conversao(c.pilha[..|c.pilha| - 1], c.saida + [c.pilha[|c.pilha| - 1]]))
  }

  /** The loop on ')' leaves a prefix of the stack, and empties it when it holds no '('. */
  lemma {:induction false} FechaGrupoPrefixo(c: Conversao)
    ensures var r := FechaGrupo(c);
            && |r.pilha| <= |c.pilha| && r.pilha == c.pilha[..|r.pilha|]
            && ('(' !in c.pilha ==> r.pilha == [])
    decreases |c.pilha|
  {
    if c.pilha != [] && c.pilha[|c.pilha| - 1] != '(' {
      var p, x := c.pilha[..|c.pilha| - 1], c.pilha[|c.pilha| - 1];
      assert c.pilha == p + [x];
      FechaGrupoPrefixo(Conversao(p, c.saida + [x]));
    }
  }

  /** The loop on ')' outputs every character it pops except the one '(' it drops. */
  lemma {:induction false} FechaGrupoConteudo(c: Conversao)
    ensures var r := FechaGrupo(c);
            multiset(r.saida) + multiset(r.pilha) + (if '(' in c.pilha then multiset{'('} else multiset{})
            == multiset(c.saida) + multiset(c.pilha)
    decreases |c.pilha|
  {
    if c.pilha != [] {
      var p, x := c.pilha[..|c.pilha| - 1], c.pilha[|c.pilha| - 1];
      assert c.pilha == p + [x];
      if x != '(' {
        FechaGrupoConteudo(Conversao(p, c.saida + [x]));
      }
    }
  }

  /** Whether the operator loop pops the top `topo` before pushing `token`. */
  predicate Cede(token: char, topo: char) {
    topo != '(' && (!NaTabela(topo) || Precedencia(token) <= Precedencia(topo))
  }

  /** The loop on an operator: pops to the output while the top yields to `token`. */
  function Desempilha(token: char, c: Conversao): Conversao
    decreases |c.pilha|
  {
    if c.pilha != [] && Cede(token, c.pilha[|c.pilha| - 1]) then
      Desempilha(token, Conversao(c.pilha[..|c.pilha| - 1], c.saida + [c.pilha[|c.pilha| - 1]]))
    else c
  }

  /** The operator loop leaves a prefix of the stack whose top does not yield to `token`. */
  lemma {:induction false} DesempilhaPrefixo(token: char, c: Conversao)
    ensures var r := Desempilha(token, c);
            && |r.pilha| <= |c.pilha| && r.pilha == c.pilha[..|r.pilha|]
            && (r.pilha == [] || !Cede(token, r.pilha[|r.pilha| - 1]))
    decreases |c.pilha|
  {
    if c.pilha != [] && Cede(token, c.pilha[|c.pilha| - 1]) {
      var p, x := c.pilha[..|c.pilha| - 1], c.pilha[|c.pilha| - 1];
      DesempilhaPrefixo(token, Conversao(p, c.saida + [x]));
      var r := Desempilha(token, c);
      assert r == Desempilha(token, Conversao(p, c.saida + [x]));
      assert p[..|r.pilha|] == c.pilha[..|r.pilha|];
    }
  }

  /** The operator loop outputs every character it pops. */
  lemma {:induction false} DesempilhaConteudo(token: char, c: Conversao)
    ensures var r := Desempilha(token, c);
            multiset(r.saida) + multiset(r.pilha) == multiset(c.saida) + multiset(c.pilha)
    decreases |c.pilha|
  {
    if c.pilha != [] && Cede(token, c.pilha[|c.pilha| - 1]) {
      var p, x := c.pilha[..|c.pilha| - 1], c.pilha[|c.pilha| - 1];
      assert c.pilha == p + [x];
      assert multiset(c.saida + [x]) + multiset(p) == multiset(c.saida) + multiset(c.pilha);
      DesempilhaConteudo(token, Conversao(p, c.saida + [x]));
    }
  }

  /** One iteration of the conversion loop. */
  function Passo(c: Conversao, token: char): Conversao {
    if EhAlnum(token) then Conversao(c.pilha, c.saida + [token])
    else if token == '(' then Conversao(c.pilha + ['('], c.saida)
    else if token == ')' then FechaGrupo(c)
    else
      var d := Desempilha(token, c);
      Conversao(d.pilha + [token], d.saida)
  }

  /** The conversion loop over `s`. */
  function Converte(c: Conversao, s: seq<char>): Conversao
    decreases |s|
  {
    if s == [] then c else Converte(Passo(c, s[0]), s[1..])
  }

  /** The final loop: every character left on the stack goes to the output, top first. */
  function Esvazia(c: Conversao): seq<char>
    decreases |c.pilha|
  {
    if c.pilha == [] then c.saida
    else Esvazia(Conversao(c.pilha[..|c.pilha| - 1], c.saida + [c.pilha[|c.pilha| - 1]]))
  }

  /** The final loop outputs exactly what the output and the stack held. */
  lemma {:induction false} EsvaziaConteudo(c: Conversao)
    ensures multiset(Esvazia(c)) == multiset(c.saida) + multiset(c.pilha)
    decreases |c.pilha|
  {
    if c.pilha != [] {
      var p, x := c.pilha[..|c.pilha| - 1], c.pilha[|c.pilha| - 1];
      assert c.pilha == p + [x];
      EsvaziaConteudo(Conversao(p, c.saida + [x]));
    }
  }

  /** The output for a string without spaces. */
  function PosfixaDeTokens(s: seq<char>): seq<char> {
    Esvazia(Converte(Conversao([], []), s))
  }

  /** What `infixa_para_posfixa` returns. */
  function Posfixa(expressao: seq<char>): seq<char> {
    PosfixaDeTokens(SemEspacos(expressao))
  }

  /** The loop on ')': pops operators to the output until '(' is on top, then drops it. */
  method FecharGrupo(pilha: seq<char>, resultado: seq<char>) returns (pilha': seq<char>, resultado': seq<char>)
    ensures Conversao(pilha', resultado') == FechaGrupo(Conversao(pilha, resultado))
  {
    pilha', resultado' := pilha, resultado;
    while pilha' != [] && pilha'[|pilha'| - 1] != '('
      invariant FechaGrupo(Conversao(pilha', resultado')) == FechaGrupo(Conversao(pilha, resultado))
      decreases |pilha'|
    {
      resultado' := resultado' + [pilha'[|pilha'| - 1]];
      pilha' := pilha'[..|pilha'| - 1];
    }
    if pilha' != [] && pilha'[|pilha'| - 1] == '(' {
      pilha' := pilha'[..|pilha'| - 1];
    }
  }

  /** The loop on an operator: pops to the output while the top yields to `token`. */
  method DesempilharOperadores(token: char, pilha: seq<char>, resultado: seq<char>)
    returns (pilha': seq<char>, resultado': seq<char>)
    ensures Conversao(pilha', resultado') == Desempilha(token, Conversao(pilha, resultado))
  {
    pilha', resultado' := pilha, resultado;
    while pilha' != [] && pilha'[|pilha'| - 1] != '('
          && (!NaTabela(pilha'[|pilha'| - 1]) || Precedencia(token) <= Precedencia(pilha'[|pilha'| - 1]))
      invariant Desempilha(token, Conversao(pilha', resultado')) == Desempilha(token, Conversao(pilha, resultado))
      decreases |pilha'|
    {
      resultado' := resultado' + [pilha'[|pilha'| - 1]];
      pilha' := pilha'[..|pilha'| - 1];
    }
  }

  method InfixaParaPosfixa(expressao: string) returns (r: string)
    ensures r == Posfixa(expressao)
    ensures Operandos(r) == Operandos(expressao)
    ensures forall o :: o != '(' && o != ')' && o != ' ' ==> multiset(r)[o] == multiset(expressao)[o]
    ensures ')' !in r && ' ' !in r
  {
    PosfixaPreserva(expressao);
    var e := SemEspacos(expressao);
    var pilha: seq<char> := [];
    var resultado: seq<char> := [];
    for i := 0 to |e|
      invariant Converte(Conversao(pilha, resultado), e[i..]) == Converte(Conversao([], []), e)
    {
      assert e[i..][1..] == e[i + 1..];
      var token := e[i];
      if EhAlnum(token) {
        resultado := resultado + [token];
      } else if token == '(' {
        pilha := pilha + [token];
      } else if token == ')' {
        pilha, resultado := FecharGrupo(pilha, resultado);
      } else {
        pilha, resultado := DesempilharOperadores(token, pilha, resultado);
        pilha := pilha + [token];
      }
    }
    assert e[|e|..] == [];
    while pilha != []
      invariant Esvazia(Conversao(pilha, resultado)) == Posfixa(expressao)
      decreases |pilha|
    {
      resultado := resultado + [pilha[|pilha| - 1]];
      pilha := pilha[..|pilha| - 1];
    }
    r := resultado;
  }

  // ---------------------------------------------------------------------------
  // Properties of the conversion.
  // ---------------------------------------------------------------------------

  /** Scanning `a + b` is scanning `a`, then `b`. */
  lemma {:induction false} ConverteConcat(c: Conversao, a: seq<char>, b: seq<char>)
    ensures Converte(c, a + b) == Converte(Converte(c, a), b)
    decreases |a|
  {
    if a == [] {
      assert a + b == b;
    } else {
      assert (a + b)[0] == a[0] && (a + b)[1..] == a[1..] + b;
      ConverteConcat(Passo(c, a[0]), a[1..], b);
    }
  }

  /** Popping the stack to the output, in any of the three loops, keeps the output's
      operands when the stack holds none. */
  lemma {:induction false} FechaGrupoOperandos(c: Conversao)
    requires SemOperandos(c.pilha)
    ensures Operandos(FechaGrupo(c).saida) == Operandos(c.saida)
    decreases |c.pilha|
  {
    if c.pilha != [] && c.pilha[|c.pilha| - 1] != '(' {
      var p, x := c.pilha[..|c.pilha| - 1], c.pilha[|c.pilha| - 1];
      OperandosConcat(c.saida, [x]);
      FechaGrupoOperandos(Conversao(p, c.saida + [x]));
    }
  }

  lemma {:induction false} DesempilhaOperandos(token: char, c: Conversao)
    requires SemOperandos(c.pilha)
    ensures Operandos(Desempilha(token, c).saida) == Operandos(c.saida)
    decreases |c.pilha|
  {
    if c.pilha != [] && Cede(token, c.pilha[|c.pilha| - 1]) {
      var p, x := c.pilha[..|c.pilha| - 1], c.pilha[|c.pilha| - 1];
      OperandosConcat(c.saida, [x]);
      DesempilhaOperandos(token, Conversao(p, c.saida + [x]));
    }
  }

  lemma {:induction false} EsvaziaOperandos(c: Conversao)
    requires SemOperandos(c.pilha)
    ensures Operandos(Esvazia(c)) == Operandos(c.saida)
    decreases |c.pilha|
  {
    if c.pilha != [] {
      var p, x := c.pilha[..|c.pilha| - 1], c.pilha[|c.pilha| - 1];
      OperandosConcat(c.saida, [x]);
      EsvaziaOperandos(Conversao(p, c.saida + [x]));
    }
  }

  /** Each iteration keeps operands off the stack and outputs the token if it is one. */
  lemma PassoOperandos(c: Conversao, token: char)
    requires SemOperandos(c.pilha)
    ensures SemOperandos(Passo(c, token).pilha)
    ensures Operandos(Passo(c, token).saida) == Operandos(c.saida) + Operandos([token])
  {
    assert Operandos([token]) == if EhAlnum(token) then [token] else [] by {
      assert [token][..0] == [];
    }
    if EhAlnum(token) {
      OperandosConcat(c.saida, [token]);
    } else if token == ')' {
      FechaGrupoPrefixo(c);
      FechaGrupoOperandos(c);
    } else if token != '(' {
      DesempilhaPrefixo(token, c);
      DesempilhaOperandos(token, c);
    }
  }

  /** Each iteration adds the token to stack or output, except ')', which is dropped
      together with the '(' it closes. */
  lemma PassoConteudo(c: Conversao, token: char)
    ensures var d := Passo(c, token);
            forall o :: o != '(' ==>
              (multiset(d.saida) + multiset(d.pilha))[o]
              == (multiset(c.saida) + multiset(c.pilha))[o] + (if o == token && o != ')' then 1 else 0)
  {
    if token == ')' {
      FechaGrupoConteudo(c);
    } else if !EhAlnum(token) && token != '(' {
      DesempilhaConteudo(token, c);
    }
  }

  /** The whole conversion loop copies the operands of the input to the output, in order. */
  lemma {:induction false} ConverteOperandos(c: Conversao, s: seq<char>)
    requires SemOperandos(c.pilha)
    ensures SemOperandos(Converte(c, s).pilha)
    ensures Operandos(Converte(c, s).saida) == Operandos(c.saida) + Operandos(s)
    decreases |s|
  {
    if s == [] {
      assert Operandos(c.saida) + Operandos(s) == Operandos(c.saida);
    } else {
      var x, t := s[0], s[1..];
      var c1 := Passo(c, x);
      assert s == [x] + t;
      assert Converte(c, s) == Converte(c1, t);
      OperandosConcat([x], t);
      PassoOperandos(c, x);
      ConverteOperandos(c1, t);
      assert Operandos(c1.saida) + Operandos(t) == Operandos(c.saida) + (Operandos([x]) + Operandos(t));
    }
  }

  /** The whole conversion loop puts every character of the input other than a
      parenthesis on the stack or the output, exactly once, and never ')'. */
  lemma {:induction false} ConverteConteudo(c: Conversao, s: seq<char>)
    ensures var d := Converte(c, s);
            forall o :: o != '(' ==>
              (multiset(d.saida) + multiset(d.pilha))[o]
              == (multiset(c.saida) + multiset(c.pilha))[o] + (if o == ')' then 0 else multiset(s)[o])
    decreases |s|
  {
    if s != [] {
      var x, t := s[0], s[1..];
      assert s == [x] + t;
      PassoConteudo(c, x);
      ConverteConteudo(Passo(c, x), t);
    }
  }

  /** The conversion copies the operands in their input order. */
  lemma PosfixaOperandos(expressao: seq<char>)
    ensures Operandos(Posfixa(expressao)) == Operandos(expressao)
  {
    var e := SemEspacos(expressao);
    SemEspacosPreserva(expressao);
    ConverteOperandos(Conversao([], []), e);
    EsvaziaOperandos(Converte(Conversao([], []), e));
  }

  /** The conversion outputs every character other than parentheses and spaces exactly as
      often as the input holds it, and never outputs ')' or a space. */
  lemma PosfixaConteudo(expressao: seq<char>)
    ensures forall o :: o != '(' && o != ')' && o != ' ' ==>
              multiset(Posfixa(expressao))[o] == multiset(expressao)[o]
    ensures ')' !in Posfixa(expressao) && ' ' !in Posfixa(expressao)
  {
    var e := SemEspacos(expressao);
    SemEspacosPreserva(expressao);
    var c := Converte(Conversao([], []), e);
    ConverteConteudo(Conversao([], []), e);
    EsvaziaConteudo(c);
    var r := Posfixa(expressao);
    var vazia: seq<char> := [];
    assert multiset(r) == multiset(c.saida) + multiset(c.pilha);
    assert multiset(e)[' '] == 0;
    assert (multiset(c.saida) + multiset(c.pilha))[')']
        == (multiset(vazia) + multiset(vazia))[')'] + 0;
    assert (multiset(c.saida) + multiset(c.pilha))[' ']
        == (multiset(vazia) + multiset(vazia))[' '] + multiset(e)[' '];
    assert multiset(r)[')'] == 0;
    assert multiset(r)[' '] == 0;
  }

  /** The conversion copies the operands in their input order, outputs every other
      character except parentheses and spaces exactly as often as the input holds it, and
      never outputs ')' or a space. */
  lemma PosfixaPreserva(expressao: seq<char>)
    ensures Operandos(Posfixa(expressao)) == Operandos(expressao)
    ensures forall o :: o != '(' && o != ')' && o != ' ' ==>
              multiset(Posfixa(expressao))[o] == multiset(expressao)[o]
    ensures ')' !in Posfixa(expressao) && ' ' !in Posfixa(expressao)
  {
    PosfixaOperandos(expressao);
    PosfixaConteudo(expressao);
  }

  /** One iteration of the final loop. */
  lemma EsvaziaPasso(p: seq<char>, x: char, s: seq<char>)
    ensures Esvazia(Conversao(p + [x], s)) == Esvazia(Conversao(p, s + [x]))
  {
    assert (p + [x])[..|p|] == p;
  }

  /** The operator loop over a stack holding one operator `p`. */
  lemma DesempilhaUm(token: char, p: char, s: seq<char>)
    requires NaTabela(p)
    ensures Desempilha(token, Conversao([p], s))
            == if Precedencia(token) <= Precedencia(p) then Conversao([], s + [p])
               else Conversao([p], s)
  {
    assert [p][..0] == [];
  }

  /** The conversion loop over three operands and two table operators. */
  lemma ConverteDoisOperadores(s: seq<char>, p: char, y: char, q: char, z: char)
    requires EhAlnum(y) && EhAlnum(z) && NaTabela(p) && NaTabela(q)
    ensures Converte(Conversao([], s), [p, y, q, z])
            == if Precedencia(q) <= Precedencia(p) then Conversao([q], s + [y, p, z])
               else Conversao([p, q], s + [y, z])
  {
    var c1 := Conversao([], s);
    var c2 := Conversao([p], s);
    var c3 := Conversao([p], s + [y]);
    var c4 := if Precedencia(q) <= Precedencia(p) then Conversao([q], s + [y, p])
              else Conversao([p, q], s + [y]);
    var c5 := Conversao(c4.pilha, c4.saida + [z]);
    assert Converte(c1, [p, y, q, z]) == Converte(c2, [y, q, z]) by {
      assert [p, y, q, z][1..] == [y, q, z];
      assert Passo(c1, p) == c2;
    }
    assert Converte(c2, [y, q, z]) == Converte(c3, [q, z]) by {
      assert [y, q, z][1..] == [q, z];
      assert Passo(c2, y) == c3;
    }
    assert Converte(c3, [q, z]) == Converte(c4, [z]) by {
      assert [q, z][1..] == [z];
      DesempilhaUm(q, p, s + [y]);
      assert s + [y] + [p] == s + [y, p];
      assert Passo(c3, q) == c4;
    }
    assert Converte(c4, [z]) == c5 by {
      assert [z][1..] == [];
      assert Passo(c4, z) == c5;
    }
    assert c4.saida + [z] == if Precedencia(q) <= Precedencia(p) then s + [y, p, z] else s + [y, z];
  }

  /** The conversion of "q z r w" after an output `s`, then the final loop: r goes out
      before w unless it binds more tightly than q. */
  lemma EsvaziaDoisOperadores(s: seq<char>, q: char, z: char, r: char, w: char)
    requires EhAlnum(z) && EhAlnum(w) && NaTabela(q) && NaTabela(r)
    ensures Esvazia(Converte(Conversao([], s), [q, z, r, w]))
            == if Precedencia(r) <= Precedencia(q) then s + [z, q, w, r] else s + [z, w, r, q]
  {
    ConverteDoisOperadores(s, q, z, r, w);
    if Precedencia(r) <= Precedencia(q) {
      EsvaziaPasso([], r, s + [z, q, w]);
      assert [] + [r] == [r] && s + [z, q, w] + [r] == s + [z, q, w, r];
    } else {
      EsvaziaPasso([q], r, s + [z, w]);
      EsvaziaPasso([], q, s + [z, w, r]);
      assert [q] + [r] == [q, r] && [] + [q] == [q];
      assert s + [z, w] + [r] + [q] == s + [z, w, r, q];
    }
  }

  /** How precedence orders two operators between three operands: the first one goes to
      the output before the third operand unless the second binds more tightly. Operators
      of equal precedence, `^` included, group to the left. */
  lemma TresOperandos(x: char, p: char, y: char, q: char, z: char)
    requires EhAlnum(x) && EhAlnum(y) && EhAlnum(z) && NaTabela(p) && NaTabela(q)
    ensures PosfixaDeTokens([x, p, y, q, z])
            == if Precedencia(q) <= Precedencia(p) then [x, y, p, z, q] else [x, y, z, q, p]
  {
    assert Converte(Conversao([], []), [x, p, y, q, z]) == Converte(Conversao([], [x]), [p, y, q, z]) by {
      assert [x, p, y, q, z][1..] == [p, y, q, z];
      assert Passo(Conversao([], []), x) == Conversao([], [x]);
    }
    EsvaziaDoisOperadores([x], p, y, q, z);
    assert [x] + [y, p, z, q] == [x, y, p, z, q] && [x] + [y, z, q, p] == [x, y, z, q, p];
  }

  /** The two examples of the routine's documentation and of its precedence rule. */
  lemma ExemplosDePrecedencia()
    ensures Posfixa("A + B * C") == "ABC*+"
    ensures Posfixa("2^3^2") == "23^2^"
  {
    SemEspacosCinco('A', '+', 'B', '*', 'C');
    TresOperandos('A', '+', 'B', '*', 'C');
    SemEspacosIdentidade("2^3^2");
    TresOperandos('2', '^', '3', '^', '2');
  }

  // ---------------------------------------------------------------------------
  // avaliar_posfixa.
  // ---------------------------------------------------------------------------

  /** The `ValueError` "Expressão inválida", and the operations whose Python result is not
      an integer (`/`, and `**` with a negative exponent), which this model does not follow. */
  datatype ErroExpressao = ExpressaoInvalida | ForaDoModelo

  /** The test of `token` against the operator string: the five operators + - * / and ^
      that the evaluator accepts. None is a digit, so its two branches never overlap. */
  predicate EhOperacao(c: char)
    ensures EhOperacao(c) ==> !EhDigito(c)
  {
    c == '+' || c == '-' || c == '*' || c == '/' || c == '^'
  }

  /** `a ** n` for a non-negative exponent. */
  function Pot(a: int, n: nat): (r: int)
    ensures a >= 1 ==> r >= 1
    ensures a == 0 ==> r == (if n == 0 then 1 else 0)
  {
    if n == 0 then 1 else a * Pot(a, n - 1)
  }

  /** Exponents add: `a ** (m + n) == a ** m * a ** n`. */
  lemma {:induction false} PotSoma(a: int, m: nat, n: nat)
    ensures Pot(a, m + n) == Pot(a, m) * Pot(a, n)
    decreases m
  {
    if m > 0 {
      PotSoma(a, m - 1, n);
      assert Pot(a, m + n) == a * Pot(a, m - 1 + n);
    }
  }

  /** The result of `a op b`: an integer for `+`, `-`, `*` and `^` with a non-negative
      exponent; the two cases whose Python result is a float are left out of the model. */
  function Aplica(op: char, a: int, b: int): (r: Result<int, ErroExpressao>)
    requires EhOperacao(op)
    ensures r.Err? <==> op == '/' || (op == '^' && b < 0)
    ensures r.Err? ==> r.error == ForaDoModelo
  {
    if op == '+' then Ok(a + b)
    else if op == '-' then Ok(a - b)
    else if op == '*' then Ok(a * b)
    else if op == '/' then Err(ForaDoModelo)
    else if b < 0 then Err(ForaDoModelo)
    else Ok(Pot(a, b))
  }

  /** The evaluation loop over `s` from the stack `pilha` (top last). */
  function Avalia(pilha: seq<int>, s: seq<char>): Result<seq<int>, ErroExpressao>
    decreases |s|
  {
    if s == [] then Ok(pilha)
    else if EhDigito(s[0]) then Avalia(pilha + [ValorDigito(s[0])], s[1..])
    else if EhOperacao(s[0]) then
      if |pilha| < 2 then Err(ExpressaoInvalida)
      else
        match Aplica(s[0], pilha[|pilha| - 2], pilha[|pilha| - 1])
        case Err(e) => Err(e)
        case Ok(v) => Avalia(pilha[..|pilha| - 2] + [v], s[1..])
    else Avalia(pilha, s[1..])
  }

  /** What `avaliar_posfixa` returns or raises. */
  function Avaliacao(expressao: seq<char>): Result<int, ErroExpressao> {
    match Avalia([], expressao)
    case Err(e) => Err(e)
    case Ok(pilha) => if |pilha| != 1 then Err(ExpressaoInvalida) else Ok(pilha[0])
  }

  method AvaliarPosfixa(expressao: string) returns (r: Result<int, ErroExpressao>)
    ensures r == Avaliacao(expressao)
  {
    var pilha: seq<int> := [];
    for i := 0 to |expressao|
      invariant Avalia(pilha, expressao[i..]) == Avalia([], expressao)
    {
      assert expressao[i..][1..] == expressao[i + 1..];
      var token := expressao[i];
      if EhDigito(token) {
        pilha := pilha + [ValorDigito(token)];
      } else if EhOperacao(token) {
        if |pilha| < 2 {
          return Err(ExpressaoInvalida);
        }
        var b := pilha[|pilha| - 1];
        var a := pilha[|pilha| - 2];
        pilha := pilha[..|pilha| - 2];
        if token == '+' {
          pilha := pilha + [a + b];
        } else if token == '-' {
          pilha := pilha + [a - b];
        } else if token == '*' {
          pilha := pilha + [a * b];
        } else if token == '/' {
          return Err(ForaDoModelo);
        } else {
          if b < 0 {
            return Err(ForaDoModelo);
          }
          pilha := pilha + [Pot(a, b)];
        }
      }
    }
    assert expressao[|expressao|..] == [];
    if |pilha| != 1 {
      return Err(ExpressaoInvalida);
    }
    r := Ok(pilha[0]);
  }

  /** The second operand is the one popped first: "xy-" is x - y. */
  lemma OrdemDosOperandos(x: char, y: char, op: char)
    requires EhDigito(x) && EhDigito(y) && EhOperacao(op)
    ensures Avaliacao([x, y, op]) == Aplica(op, ValorDigito(x), ValorDigito(y))
  {
    var a, b := ValorDigito(x), ValorDigito(y);
    assert [x, y, op][1..] == [y, op] && [y, op][1..] == [op] && [op][1..] == [];
    assert [] + [a] == [a] && [a] + [b] == [a, b];
    assert Avalia([], [x, y, op]) == Avalia([a], [y, op]);
    assert Avalia([a], [y, op]) == Avalia([a, b], [op]);
    match Aplica(op, a, b)
    case Err(e) =>
      assert Avalia([a, b], [op]) == Err(e);
    case Ok(v) =>
      assert [a, b][..0] + [v] == [v];
      assert Avalia([a, b], [op]) == Avalia([v], []);
  }

  /** An operator that finds fewer than two values raises, whatever follows. */
  lemma OperadorSemOperandos(x: char, op: char, resto: seq<char>)
    requires EhDigito(x) && EhOperacao(op)
    ensures Avaliacao([x, op] + resto) == Err(ExpressaoInvalida)
    ensures Avaliacao([op] + resto) == Err(ExpressaoInvalida)
  {
    var a := ValorDigito(x);
    assert ([x, op] + resto)[1..] == [op] + resto;
    assert ([x, op] + resto)[0] == x && ([op] + resto)[0] == op;
    assert [] + [a] == [a];
    assert Avalia([], [x, op] + resto) == Avalia([a], [op] + resto);
    assert Avalia([a], [op] + resto) == Err(ExpressaoInvalida);
    assert Avalia([], [op] + resto) == Err(ExpressaoInvalida);
  }

  lemma ExemplosDeAvaliacao()
    ensures Avaliacao("3") == Ok(3)
    ensures Avaliacao("53+2*") == Ok(16)
    ensures Avaliacao("3+") == Err(ExpressaoInvalida)
  {
  }

  // ---------------------------------------------------------------------------
  // A reference: expression trees, and the round trip through both routines.
  // ---------------------------------------------------------------------------

  /** An arithmetic expression over single digits and the five operators. */
  datatype Expr = Num(d: int) | Op(op: char, esq: Expr, dir: Expr)

  predicate BemFormada(e: Expr) {
    match e
    case Num(d) => 0 <= d <= 9
    case Op(op, l, r) => EhOperacao(op) && BemFormada(l) && BemFormada(r)
  }

  /** The value of the tree, with the same arithmetic as the evaluator. */
  function Valor(e: Expr): Result<int, ErroExpressao>
    requires BemFormada(e)
  {
    match e
    case Num(d) => Ok(d)
    case Op(op, l, r) =>
      match Valor(l)
      case Err(x) => Err(x)
      case Ok(a) =>
        match Valor(r)
        case Err(x) => Err(x)
        case Ok(b) => Aplica(op, a, b)
  }

  /** The fully parenthesised infix text of the tree. */
  function Infixa(e: Expr): (s: seq<char>)
    requires BemFormada(e)
    ensures ' ' !in s
  {
    match e
    case Num(d) => [Algarismo(d)]
    case Op(op, l, r) => ['('] + Infixa(l) + [op] + Infixa(r) + [')']
  }

  /** The postfix text of the tree. */
  function PosfixaDe(e: Expr): seq<char>
    requires BemFormada(e)
  {
    match e
    case Num(d) => [Algarismo(d)]
    case Op(op, l, r) => PosfixaDe(l) + PosfixaDe(r) + [op]
  }

  /** Removing spaces from a string without spaces changes nothing. */
  lemma {:induction false} SemEspacosIdentidade(s: seq<char>)
    requires ' ' !in s
    ensures SemEspacos(s) == s
    decreases |s|
  {
    if s != [] {
      SemEspacosIdentidade(s[1..]);
    }
  }

  /** The conversion turns the fully parenthesised text of a tree into its postfix text,
      on any stack and in front of any rest. */
  lemma {:induction false} ConverteInfixa(e: Expr, c: Conversao, resto: seq<char>)
    requires BemFormada(e)
    ensures Converte(c, Infixa(e) + resto) == Converte(Conversao(c.pilha, c.saida + PosfixaDe(e)), resto)
  {
    match e
    case Num(d) =>
      var x := Algarismo(d);
      assert ([x] + resto)[0] == x && ([x] + resto)[1..] == resto;
    case Op(op, l, r) =>
      var pl, pr := PosfixaDe(l), PosfixaDe(r);
      var c1 := Conversao(c.pilha + ['('], c.saida);
      var c2 := Conversao(c.pilha + ['(', op], c.saida + pl);
      var c3 := Conversao(c.pilha + ['(', op], c.saida + pl + pr);
      calc {
        Converte(c, Infixa(e) + resto);
        { InfixaPartes(op, l, r, resto); }
        Converte(c, ['('] + (Infixa(l) + ([op] + (Infixa(r) + ([')'] + resto)))));
        { ConverteUm(c, '(', Infixa(l) + ([op] + (Infixa(r) + ([')'] + resto)))); }
        Converte(c1, Infixa(l) + ([op] + (Infixa(r) + ([')'] + resto))));
        { ConverteInfixa(l, c1, [op] + (Infixa(r) + ([')'] + resto))); }
        Converte(Conversao(c1.pilha, c1.saida + pl), [op] + (Infixa(r) + ([')'] + resto)));
        { ConverteUm(Conversao(c1.pilha, c1.saida + pl), op, Infixa(r) + ([')'] + resto));
          EmpilhaSobreAbre(c.pilha, op, c.saida + pl); }
        Converte(c2, Infixa(r) + ([')'] + resto));
        { ConverteInfixa(r, c2, [')'] + resto);
          assert c2.saida + pr == c.saida + pl + pr; }
        Converte(c3, [')'] + resto);
        { ConverteUm(c3, ')', resto);
          FechaDoisNiveis(c.pilha, op, c.saida + pl + pr); }
        Converte(Conversao(c.pilha, c.saida + pl + pr + [op]), resto);
        { assert c.saida + pl + pr + [op] == c.saida + PosfixaDe(e); }
        Converte(Conversao(c.pilha, c.saida + PosfixaDe(e)), resto);
      }
  }

  lemma InfixaPartes(op: char, l: Expr, r: Expr, resto: seq<char>)
    requires BemFormada(Op(op, l, r))
    ensures Infixa(Op(op, l, r)) + resto == ['('] + (Infixa(l) + ([op] + (Infixa(r) + ([')'] + resto))))
  {
  }

  /** An operator read right after '(' pops nothing and is pushed. */
  lemma EmpilhaSobreAbre(p: seq<char>, op: char, s: seq<char>)
    requires EhOperacao(op)
    ensures Passo(Conversao(p + ['('], s), op) == Conversao(p + ['(', op], s)
  {
    assert (p + ['('])[|p|] == '(';
    assert p + ['('] + [op] == p + ['(', op];
  }

  /** One step of the scan. */
  lemma ConverteUm(c: Conversao, x: char, resto: seq<char>)
    ensures Converte(c, [x] + resto) == Converte(Passo(c, x), resto)
  {
    assert ([x] + resto)[0] == x && ([x] + resto)[1..] == resto;
  }

  /** ')' over the stack "... ( op" outputs op and drops the '('. */
  lemma FechaDoisNiveis(p: seq<char>, op: char, s: seq<char>)
    requires EhOperacao(op)
    ensures FechaGrupo(Conversao(p + ['(', op], s)) == Conversao(p, s + [op])
  {
    var q := p + ['(', op];
    assert q[..|q| - 1] == p + ['('];
    assert (p + ['('])[..|p|] == p;
  }

  /** The calculator round trip: converting the fully parenthesised text of a tree and
      evaluating the result gives the value of the tree. */
  lemma CalculadoraIdaVolta(e: Expr)
    requires BemFormada(e)
    ensures Posfixa(Infixa(e)) == PosfixaDe(e)
    ensures Avaliacao(Posfixa(Infixa(e))) == Valor(e)
  {
    SemEspacosIdentidade(Infixa(e));
    ConverteInfixa(e, Conversao([], []), []);
    assert Infixa(e) + [] == Infixa(e);
    assert [] + PosfixaDe(e) == PosfixaDe(e);
    AvaliaPosfixaDe(e, [], []);
    assert PosfixaDe(e) + [] == PosfixaDe(e);
  }

  /** Evaluating the postfix text of a tree pushes its value, or raises its error. */
  lemma {:induction false} AvaliaPosfixaDe(e: Expr, pilha: seq<int>, resto: seq<char>)
    requires BemFormada(e)
    ensures Avalia(pilha, PosfixaDe(e) + resto)
            == match Valor(e)
               case Err(x) => Err(x)
               case Ok(v) => Avalia(pilha + [v], resto)
  {
    match e
    case Num(d) =>
      var x := Algarismo(d);
      assert ([x] + resto)[0] == x && ([x] + resto)[1..] == resto;
    case Op(op, l, r) =>
      assert PosfixaDe(e) + resto == PosfixaDe(l) + (PosfixaDe(r) + ([op] + resto));
      AvaliaPosfixaDe(l, pilha, PosfixaDe(r) + ([op] + resto));
      if Valor(l).Ok? {
        var a := Valor(l).value;
        AvaliaPosfixaDe(r, pilha + [a], [op] + resto);
        if Valor(r).Ok? {
          var b := Valor(r).value;
          var p := pilha + [a] + [b];
          assert ([op] + resto)[0] == op && ([op] + resto)[1..] == resto;
          assert p[..|p| - 2] == pilha && p[|p| - 2] == a && p[|p| - 1] == b;
        }
      }
  }

  // ---------------------------------------------------------------------------
  // The round trip on text with only the parentheses the precedence rule needs.
  // ---------------------------------------------------------------------------

  /** How tightly the text of `e` binds: the precedence of its top operator, or 4, above
      every operator, for a digit. */
  function Nivel(e: Expr): nat {
    match e
    case Num(_) => 4
    case Op(op, _, _) => Precedencia(op)
  }

  /** Whether the child `x` of `op` is written in parentheses: a left child when it binds
      more loosely than `op`, a right child when it binds no more tightly, since the
      conversion groups operators of equal precedence to the left. */
  predicate Agrupa(x: Expr, op: char, direita: bool) {
    if direita then Nivel(x) <= Precedencia(op) else Nivel(x) < Precedencia(op)
  }

  /** The infix text of the tree with only the parentheses the conversion needs. */
  function InfixaMinima(e: Expr): (s: seq<char>)
    requires BemFormada(e)
    ensures ' ' !in s
    decreases e, 0
  {
    match e
    case Num(d) => [Algarismo(d)]
    case Op(op, l, r) => Entre(l, Agrupa(l, op, false)) + [op] + Entre(r, Agrupa(r, op, true))
  }

  /** The text of an operand, in parentheses when `grupo` holds. */
  function Entre(x: Expr, grupo: bool): (s: seq<char>)
    requires BemFormada(x)
    ensures ' ' !in s
    decreases x, 1
  {
    if grupo then ['('] + InfixaMinima(x) + [')'] else InfixaMinima(x)
  }

  /** The operators the conversion still holds on its stack (bottom first) after reading
      the text of `e`. */
  function Pendentes(e: Expr): seq<char>
    requires BemFormada(e)
  {
    match e
    case Num(_) => []
    case Op(op, l, r) => [op] + (if Agrupa(r, op, true) then [] else Pendentes(r))
  }

  /** What the conversion has output after reading the text of `e`. */
  function Emitida(e: Expr): seq<char>
    requires BemFormada(e)
  {
    match e
    case Num(d) => [Algarismo(d)]
    case Op(op, l, r) => PosfixaDe(l) + (if Agrupa(r, op, true) then PosfixaDe(r) else Emitida(r))
  }

  /** The characters popped off the stack `p`, top first. */
  function Desempilhados(p: seq<char>): seq<char>
    decreases |p|
  {
    if p == [] then [] else [p[|p| - 1]] + Desempilhados(p[..|p| - 1])
  }

  lemma {:induction false} DesempilhadosConcat(a: seq<char>, b: seq<char>)
    ensures Desempilhados(a + b) == Desempilhados(b) + Desempilhados(a)
    decreases |b|
  {
    if b == [] {
      assert a + b == a;
    } else {
      assert (a + b)[..|a + b| - 1] == a + b[..|b| - 1];
      DesempilhadosConcat(a, b[..|b| - 1]);
    }
  }

  /** The pending operators are table operators binding at least as tightly as `e`. */
  lemma {:induction false} PendentesLimitados(e: Expr)
    requires BemFormada(e)
    ensures forall k :: 0 <= k < |Pendentes(e)| ==>
              NaTabela(Pendentes(e)[k]) && Nivel(e) <= Precedencia(Pendentes(e)[k])
  {
    match e
    case Num(d) =>
    case Op(op, l, r) =>
      if Agrupa(r, op, true) {
        assert Pendentes(e) == [op];
      } else {
        var pr := Pendentes(r);
        PendentesLimitados(r);
        assert Pendentes(e) == [op] + pr;
        assert forall k :: 0 <= k < |pr| ==> Precedencia(op) < Precedencia(pr[k]);
      }
  }

  /** Popping the pending operators completes the postfix text of `e`. */
  lemma {:induction false} PendentesCompletam(e: Expr)
    requires BemFormada(e)
    ensures Emitida(e) + Desempilhados(Pendentes(e)) == PosfixaDe(e)
  {
    match e
    case Num(d) =>
    case Op(op, l, r) =>
      assert Desempilhados([op]) == [op] by {
        assert [op][..0] == [];
      }
      if Agrupa(r, op, true) {
        assert Pendentes(e) == [op] && Emitida(e) == PosfixaDe(l) + PosfixaDe(r);
      } else {
        var pr, er := Pendentes(r), Emitida(r);
        assert Pendentes(e) == [op] + pr && Emitida(e) == PosfixaDe(l) + er;
        PendentesCompletam(r);
        DesempilhadosConcat([op], pr);
        Reagrupa(PosfixaDe(l), er, Desempilhados(pr), [op]);
      }
  }

  /** Regrouping four concatenated pieces. */
  lemma Reagrupa(a: seq<char>, b: seq<char>, c: seq<char>, d: seq<char>)
    ensures a + b + (c + d) == a + (b + c) + d
  {
  }

  /** The top of `pilha` stays while operators of precedence `nivel` or more are read: the
      stack is empty, or its top is '(' or a table operator of lower precedence. */
  predicate Retem(pilha: seq<char>, nivel: nat) {
    pilha == [] || pilha[|pilha| - 1] == '('
    || (NaTabela(pilha[|pilha| - 1]) && Precedencia(pilha[|pilha| - 1]) < nivel)
  }

  /** The operator loop pops exactly the pending operators, which bind at least as tightly
      as `token`, and stops at a top that holds. */
  lemma {:induction false} DesempilhaPendentes(token: char, pilha: seq<char>, pend: seq<char>, saida: seq<char>)
    requires forall k :: 0 <= k < |pend| ==> NaTabela(pend[k]) && Precedencia(token) <= Precedencia(pend[k])
    requires Retem(pilha, Precedencia(token))
    ensures Desempilha(token, Conversao(pilha + pend, saida)) == Conversao(pilha, saida + Desempilhados(pend))
    decreases |pend|
  {
    if pend == [] {
      assert pilha + pend == pilha && saida + Desempilhados(pend) == saida;
      assert pilha == [] || !Cede(token, pilha[|pilha| - 1]);
    } else {
      var x, init := pend[|pend| - 1], pend[..|pend| - 1];
      var q := pilha + pend;
      assert q[|q| - 1] == x && q[..|q| - 1] == pilha + init;
      assert Cede(token, x);
      calc {
        Desempilha(token, Conversao(q, saida));
        Desempilha(token, Conversao(pilha + init, saida + [x]));
        { DesempilhaPendentes(token, pilha, init, saida + [x]); }
        Conversao(pilha, saida + [x] + Desempilhados(init));
        { assert saida + [x] + Desempilhados(init) == saida + ([x] + Desempilhados(init)); }
        Conversao(pilha, saida + Desempilhados(pend));
      }
    }
  }

  /** ')' pops the pending operators above the matching '(' and drops it. */
  lemma {:induction false} FechaPendentes(pilha: seq<char>, pend: seq<char>, saida: seq<char>)
    requires forall k :: 0 <= k < |pend| ==> NaTabela(pend[k])
    ensures FechaGrupo(Conversao(pilha + ['('] + pend, saida)) == Conversao(pilha, saida + Desempilhados(pend))
    decreases |pend|
  {
    var q := pilha + ['('] + pend;
    if pend == [] {
      assert q == pilha + ['('] && q[..|q| - 1] == pilha && saida + Desempilhados(pend) == saida;
    } else {
      var x, init := pend[|pend| - 1], pend[..|pend| - 1];
      assert q[|q| - 1] == x && q[..|q| - 1] == pilha + ['('] + init;
      calc {
        FechaGrupo(Conversao(q, saida));
        FechaGrupo(Conversao(pilha + ['('] + init, saida + [x]));
        { FechaPendentes(pilha, init, saida + [x]); }
        Conversao(pilha, saida + [x] + Desempilhados(init));
        { assert saida + [x] + Desempilhados(init) == saida + ([x] + Desempilhados(init)); }
        Conversao(pilha, saida + Desempilhados(pend));
      }
    }
  }

  /** The final loop outputs the stack top first. */
  lemma {:induction false} EsvaziaPendentes(pend: seq<char>, saida: seq<char>)
    ensures Esvazia(Conversao(pend, saida)) == saida + Desempilhados(pend)
    decreases |pend|
  {
    if pend == [] {
      assert saida + Desempilhados(pend) == saida;
    } else {
      var x, init := pend[|pend| - 1], pend[..|pend| - 1];
      calc {
        Esvazia(Conversao(pend, saida));
        Esvazia(Conversao(init, saida + [x]));
        { EsvaziaPendentes(init, saida + [x]); }
        saida + [x] + Desempilhados(init);
        { assert saida + [x] + Desempilhados(init) == saida + ([x] + Desempilhados(init)); }
        saida + Desempilhados(pend);
      }
    }
  }

  /** Scanning one character is one step of the loop. */
  lemma ConverteSo(c: Conversao, x: char)
    ensures Converte(c, [x]) == Passo(c, x)
  {
    assert [x][1..] == [];
  }

  /** Regrouping three concatenated pieces. */
  lemma Associa(a: seq<char>, b: seq<char>, c: seq<char>)
    ensures a + b + c == a + (b + c)
  {
  }

  /** A parenthesised subexpression: the conversion outputs its postfix text and leaves the
      stack as it found it. */
  lemma {:induction false} ConverteGrupo(e: Expr, c: Conversao)
    requires BemFormada(e)
    ensures Converte(c, ['('] + InfixaMinima(e) + [')']) == Conversao(c.pilha, c.saida + PosfixaDe(e))
    decreases e, 2
  {
    var s, pend, emitida := InfixaMinima(e), Pendentes(e), Emitida(e);
    var c1 := Conversao(c.pilha + ['('], c.saida);
    var c2 := Conversao(c1.pilha + pend, c1.saida + emitida);
    ConverteConcat(c, ['('] + s, [')']);
    ConverteConcat(c, ['('], s);
    ConverteSo(c, '(');
    assert Converte(c, ['(']) == c1;
    ConverteMinima(e, c1);
    assert Converte(c, ['('] + s) == c2;
    ConverteSo(c2, ')');
    PendentesLimitados(e);
    FechaPendentes(c.pilha, pend, c.saida + emitida);
    PendentesCompletam(e);
    Associa(c.saida, emitida, Desempilhados(pend));
  }

  /** The conversion reads the text of `e` over a stack whose top holds: it outputs
      `Emitida(e)` and leaves `Pendentes(e)` on top of the stack. */
  lemma {:induction false} ConverteMinima(e: Expr, c: Conversao)
    requires BemFormada(e) && Retem(c.pilha, Nivel(e))
    ensures Converte(c, InfixaMinima(e)) == Conversao(c.pilha + Pendentes(e), c.saida + Emitida(e))
    decreases e, 1
  {
    match e
    case Num(d) =>
      ConverteSo(c, Algarismo(d));
      assert c.pilha + [] == c.pilha;
    case Op(op, l, r) =>
      ConverteOperacao(op, l, r, c);
  }

  /** `ConverteMinima` for an operator node: the left operand, the operator loop on `op`,
      then the right operand over `op`. */
  lemma {:induction false} ConverteOperacao(op: char, l: Expr, r: Expr, c: Conversao)
    requires BemFormada(Op(op, l, r)) && Retem(c.pilha, Precedencia(op))
    ensures Converte(c, InfixaMinima(Op(op, l, r)))
            == Conversao(c.pilha + Pendentes(Op(op, l, r)), c.saida + Emitida(Op(op, l, r)))
    decreases Op(op, l, r), 0
  {
    var e := Op(op, l, r);
    var esq, dir := Entre(l, Agrupa(l, op, false)), Entre(r, Agrupa(r, op, true));
    var cb := Conversao(c.pilha + [op], c.saida + PosfixaDe(l));
    var pr := if Agrupa(r, op, true) then [] else Pendentes(r);
    var er := if Agrupa(r, op, true) then PosfixaDe(r) else Emitida(r);
    assert InfixaMinima(e) == esq + [op] + dir;
    ConverteConcat(c, esq + [op], dir);
    ConverteConcat(c, esq, [op]);
    var ca := ConverteEsquerdo(op, l, c);
    ConverteSo(ca, op);
    assert Converte(c, esq + [op]) == cb;
    ConverteDireito(op, r, cb);
    assert Pendentes(e) == [op] + pr && Emitida(e) == PosfixaDe(l) + er;
    Associa(c.pilha, [op], pr);
    Associa(c.saida, PosfixaDe(l), er);
  }

  /** The right operand of `op`, read with `op` on top of the stack. */
  lemma {:induction false} ConverteDireito(op: char, r: Expr, c: Conversao)
    requires EhOperacao(op) && BemFormada(r) && c.pilha != [] && c.pilha[|c.pilha| - 1] == op
    ensures Converte(c, Entre(r, Agrupa(r, op, true)))
            == Conversao(c.pilha + (if Agrupa(r, op, true) then [] else Pendentes(r)),
                         c.saida + (if Agrupa(r, op, true) then PosfixaDe(r) else Emitida(r)))
    decreases r, 3
  {
    if Agrupa(r, op, true) {
      ConverteGrupo(r, c);
      assert c.pilha + [] == c.pilha;
    } else {
      ConverteMinima(r, c);
    }
  }

  /** The left operand of `op` and the operator loop on `op`: the stack is back to where it
      was and the output has gained the postfix text of `l`. */
  lemma {:induction false} ConverteEsquerdo(op: char, l: Expr, c: Conversao) returns (ca: Conversao)
    requires EhOperacao(op) && BemFormada(l) && Retem(c.pilha, Precedencia(op))
    ensures Converte(c, Entre(l, Agrupa(l, op, false))) == ca
    ensures Desempilha(op, ca) == Conversao(c.pilha, c.saida + PosfixaDe(l))
    decreases l, 3
  {
    if Agrupa(l, op, false) {
      ConverteGrupo(l, c);
      ca := Conversao(c.pilha, c.saida + PosfixaDe(l));
      DesempilhaPendentes(op, c.pilha, [], ca.saida);
      assert c.pilha + [] == c.pilha && ca.saida + Desempilhados([]) == ca.saida;
    } else {
      var pl, el := Pendentes(l), Emitida(l);
      ConverteMinima(l, c);
      ca := Conversao(c.pilha + pl, c.saida + el);
      PendentesLimitados(l);
      DesempilhaPendentes(op, c.pilha, pl, c.saida + el);
      PendentesCompletam(l);
      Associa(c.saida, el, Desempilhados(pl));
    }
  }

  /** The calculator round trip on text with only the parentheses that precedence and
      left-to-right grouping need: the conversion gives the tree's postfix text, and
      evaluating that gives the tree's value. */
  lemma CalculadoraMinima(e: Expr)
    requires BemFormada(e)
    ensures Posfixa(InfixaMinima(e)) == PosfixaDe(e)
    ensures Avaliacao(Posfixa(InfixaMinima(e))) == Valor(e)
  {
    SemEspacosIdentidade(InfixaMinima(e));
    ConverteMinima(e, Conversao([], []));
    assert [] + Pendentes(e) == Pendentes(e) && [] + Emitida(e) == Emitida(e);
    PendentesCompletam(e);
    EsvaziaPendentes(Pendentes(e), Emitida(e));
    AvaliaPosfixaDe(e, [], []);
    assert PosfixaDe(e) + [] == PosfixaDe(e);
  }

  /** Two operators over three digits: a left group is written without parentheses unless
      its operator binds more loosely; a right group is written in parentheses unless its
      operator binds more tightly. */
  lemma InfixaMinimaDoisOperadores(p: char, q: char, x: int, y: int, z: int)
    requires EhOperacao(p) && EhOperacao(q) && 0 <= x <= 9 && 0 <= y <= 9 && 0 <= z <= 9
    ensures var a, b, c := Algarismo(x), Algarismo(y), Algarismo(z);
            InfixaMinima(Op(q, Op(p, Num(x), Num(y)), Num(z)))
            == if Precedencia(p) < Precedencia(q) then ['(', a, p, b, ')', q, c] else [a, p, b, q, c]
    ensures var a, b, c := Algarismo(x), Algarismo(y), Algarismo(z);
            InfixaMinima(Op(p, Num(x), Op(q, Num(y), Num(z))))
            == if Precedencia(q) <= Precedencia(p) then [a, p, '(', b, q, c, ')'] else [a, p, b, q, c]
  {
    var a, b, c := Algarismo(x), Algarismo(y), Algarismo(z);
    assert InfixaMinima(Num(x)) == [a] && InfixaMinima(Num(y)) == [b] && InfixaMinima(Num(z)) == [c];
    assert Entre(Num(x), false) == [a] && Entre(Num(y), false) == [b] && Entre(Num(z), false) == [c];
    assert !Agrupa(Num(x), p, false) && !Agrupa(Num(y), p, true);
    assert !Agrupa(Num(y), q, false) && !Agrupa(Num(z), q, true);
    assert InfixaMinima(Op(p, Num(x), Num(y))) == [a, p, b];
    assert InfixaMinima(Op(q, Num(y), Num(z))) == [b, q, c];
  }

  // ---------------------------------------------------------------------------
  // Parenthesised groups, and the expressions of `aplicacao_calculadora`.
  // ---------------------------------------------------------------------------

  /** A character and the space after it: the character stays, the space goes. */
  lemma SemEspacosPrefixo(a: char, s: seq<char>)
    requires a != ' '
    ensures SemEspacos([a, ' '] + s) == [a] + SemEspacos(s)
  {
    assert ([a, ' '] + s)[1..] == [' '] + s;
    assert ([' '] + s)[1..] == s;
  }

  /** Removing the spaces of "a b c" keeps the three characters. */
  lemma SemEspacosTres(a: char, b: char, c: char)
    requires a != ' ' && b != ' ' && c != ' '
    ensures SemEspacos([a, ' ', b, ' ', c]) == [a, b, c]
  {
    assert SemEspacos([c]) == [c] by { assert [c][1..] == []; }
    SemEspacosPrefixo(b, [c]);
    assert [b, ' '] + [c] == [b, ' ', c];
    SemEspacosPrefixo(a, [b, ' ', c]);
    assert [a, ' '] + [b, ' ', c] == [a, ' ', b, ' ', c];
  }

  /** Removing the spaces of "a b c d e" keeps the five characters. */
  lemma SemEspacosCinco(a: char, b: char, c: char, d: char, e: char)
    requires a != ' ' && b != ' ' && c != ' ' && d != ' ' && e != ' '
    ensures SemEspacos([a, ' ', b, ' ', c, ' ', d, ' ', e]) == [a, b, c, d, e]
  {
    SemEspacosTres(c, d, e);
    SemEspacosPrefixo(b, [c, ' ', d, ' ', e]);
    assert [b, ' '] + [c, ' ', d, ' ', e] == [b, ' ', c, ' ', d, ' ', e];
    SemEspacosPrefixo(a, [b, ' ', c, ' ', d, ' ', e]);
    assert [a, ' '] + [b, ' ', c, ' ', d, ' ', e] == [a, ' ', b, ' ', c, ' ', d, ' ', e];
  }

  /** Removing the spaces of "a b c d e f g" keeps the seven characters. */
  lemma SemEspacosSete(a: char, b: char, c: char, d: char, e: char, f: char, g: char)
    requires a != ' ' && b != ' ' && c != ' ' && d != ' ' && e != ' ' && f != ' ' && g != ' '
    ensures SemEspacos([a, ' ', b, ' ', c, ' ', d, ' ', e, ' ', f, ' ', g]) == [a, b, c, d, e, f, g]
  {
    var u, v := [a, ' ', b, ' ', c, ' ', d, ' '], [e, ' ', f, ' ', g];
    SemEspacosQuatro(a, b, c, d);
    SemEspacosTres(e, f, g);
    SemEspacosConcat(u, v);
    assert u + v == [a, ' ', b, ' ', c, ' ', d, ' ', e, ' ', f, ' ', g];
    assert [a, b, c, d] + [e, f, g] == [a, b, c, d, e, f, g];
  }

  /** Removing the spaces of "a b c d " keeps the four characters. */
  lemma SemEspacosQuatro(a: char, b: char, c: char, d: char)
    requires a != ' ' && b != ' ' && c != ' ' && d != ' '
    ensures SemEspacos([a, ' ', b, ' ', c, ' ', d, ' ']) == [a, b, c, d]
  {
    assert SemEspacos([]) == [];
    SemEspacosPrefixo(d, []);
    SemEspacosPrefixo(c, [d, ' ']);
    assert [c, ' '] + [d, ' '] == [c, ' ', d, ' '];
    SemEspacosPrefixo(b, [c, ' ', d, ' ']);
    assert [b, ' '] + [c, ' ', d, ' '] == [b, ' ', c, ' ', d, ' '];
    SemEspacosPrefixo(a, [b, ' ', c, ' ', d, ' ']);
    assert [a, ' '] + [b, ' ', c, ' ', d, ' '] == [a, ' ', b, ' ', c, ' ', d, ' '];
  }

  /** Removing the spaces of "a b c d e f g h i" keeps the nine characters. */
  lemma SemEspacosNove(a: char, b: char, c: char, d: char, e: char, f: char, g: char, h: char, i: char)
    requires a != ' ' && b != ' ' && c != ' ' && d != ' ' && e != ' ' && f != ' ' && g != ' '
    requires h != ' ' && i != ' '
    ensures SemEspacos([a, ' ', b, ' ', c, ' ', d, ' ', e, ' ', f, ' ', g, ' ', h, ' ', i])
         == [a, b, c, d, e, f, g, h, i]
  {
    var u, v := [a, ' ', b, ' ', c, ' ', d, ' '], [e, ' ', f, ' ', g, ' ', h, ' ', i];
    SemEspacosQuatro(a, b, c, d);
    SemEspacosCinco(e, f, g, h, i);
    SemEspacosConcat(u, v);
    assert u + v == [a, ' ', b, ' ', c, ' ', d, ' ', e, ' ', f, ' ', g, ' ', h, ' ', i];
    assert [a, b, c, d] + [e, f, g, h, i] == [a, b, c, d, e, f, g, h, i];
  }

  /** "(x p" leaves '(' on the stack and x in the output. */
  lemma AbreGrupo(x: char, resto: seq<char>)
    requires EhAlnum(x)
    ensures Converte(Conversao([], []), ['(', x] + resto) == Converte(Conversao(['('], [x]), resto)
  {
    var c0 := Conversao([], []);
    var c1 := Conversao(['('], []);
    assert Converte(c0, ['(', x] + resto) == Converte(c1, [x] + resto) by {
      assert ['(', x] + resto == ['('] + ([x] + resto);
      ConverteUm(c0, '(', [x] + resto);
      assert [] + ['('] == ['('];
    }
    ConverteUm(c1, x, resto);
    assert [] + [x] == [x];
  }

  /** "p y)" after "(x" outputs "x y p" and leaves the stack empty. */
  lemma FechaGrupoSimples(x: char, op: char, y: char, resto: seq<char>)
    requires EhAlnum(x) && EhAlnum(y) && NaTabela(op)
    ensures Converte(Conversao(['('], [x]), [op, y, ')'] + resto) == Converte(Conversao([], [x, y, op]), resto)
  {
    var c2 := Conversao(['('], [x]);
    var c3 := Conversao(['(', op], [x]);
    var c4 := Conversao(['(', op], [x, y]);
    var c5 := Conversao([], [x, y, op]);
    assert Converte(c2, [op, y, ')'] + resto) == Converte(c3, [y, ')'] + resto) by {
      assert [op, y, ')'] + resto == [op] + ([y, ')'] + resto);
      ConverteUm(c2, op, [y, ')'] + resto);
      EmpilhaSobreAbre([], op, [x]);
      assert [] + ['('] == ['('] && [] + ['(', op] == ['(', op];
    }
    assert Converte(c3, [y, ')'] + resto) == Converte(c4, [')'] + resto) by {
      assert [y, ')'] + resto == [y] + ([')'] + resto);
      ConverteUm(c3, y, [')'] + resto);
      assert [x] + [y] == [x, y];
    }
    assert Converte(c4, [')'] + resto) == Converte(c5, resto) by {
      ConverteUm(c4, ')', resto);
      FechaDoisNiveis([], op, [x, y]);
      assert [] + ['(', op] == ['(', op] && [x, y] + [op] == [x, y, op];
    }
  }

  /** A leading group "(x p y)" is output as "x y p" before anything that follows. */
  lemma GrupoInicial(x: char, p: char, y: char, resto: seq<char>)
    requires EhAlnum(x) && EhAlnum(y) && NaTabela(p)
    ensures Converte(Conversao([], []), ['(', x, p, y, ')'] + resto) == Converte(Conversao([], [x, y, p]), resto)
  {
    assert ['(', x, p, y, ')'] + resto == ['(', x] + ([p, y, ')'] + resto);
    AbreGrupo(x, [p, y, ')'] + resto);
    FechaGrupoSimples(x, p, y, resto);
  }

  /** "(x p y) q z" gives "x y p z q", whatever the precedences of p and q. */
  lemma GrupoEOperador(x: char, p: char, y: char, q: char, z: char)
    requires EhAlnum(x) && EhAlnum(y) && EhAlnum(z) && NaTabela(p) && NaTabela(q)
    ensures PosfixaDeTokens(['(', x, p, y, ')', q, z]) == [x, y, p, z, q]
  {
    var s := [x, y, p];
    assert ['(', x, p, y, ')', q, z] == ['(', x, p, y, ')'] + [q, z];
    GrupoInicial(x, p, y, [q, z]);
    assert Converte(Conversao([], s), [q, z]) == Converte(Conversao([q], s), [z]) by {
      assert [q, z][1..] == [z];
      assert Passo(Conversao([], s), q) == Conversao([q], s);
    }
    assert Converte(Conversao([q], s), [z]) == Conversao([q], s + [z]) by {
      assert [z][1..] == [];
    }
    EsvaziaPasso([], q, s + [z]);
    assert [] + [q] == [q] && s + [z] + [q] == [x, y, p, z, q];
  }

  /** "(x p y) q z r w": after the group, q and r are ordered by precedence as in
      `TresOperandos`. */
  lemma GrupoEDoisOperadores(x: char, p: char, y: char, q: char, z: char, r: char, w: char)
    requires EhAlnum(x) && EhAlnum(y) && EhAlnum(z) && EhAlnum(w)
    requires NaTabela(p) && NaTabela(q) && NaTabela(r)
    ensures PosfixaDeTokens(['(', x, p, y, ')', q, z, r, w])
            == if Precedencia(r) <= Precedencia(q) then [x, y, p, z, q, w, r] else [x, y, p, z, w, r, q]
  {
    assert ['(', x, p, y, ')', q, z, r, w] == ['(', x, p, y, ')'] + [q, z, r, w];
    GrupoInicial(x, p, y, [q, z, r, w]);
    EsvaziaDoisOperadores([x, y, p], q, z, r, w);
    assert [x, y, p] + [z, q, w, r] == [x, y, p, z, q, w, r];
    assert [x, y, p] + [z, w, r, q] == [x, y, p, z, w, r, q];
  }

  // Helpers of `AplicacaoCalculadora`: the demonstration strings, one lemma each.
  lemma SemEspacosDemo3()
    ensures SemEspacos("( 5 + 3 ) * 2") == "(5+3)*2"
  {
    SemEspacosSete('(', '5', '+', '3', ')', '*', '2');
  }

  lemma SemEspacosDemo5()
    ensures SemEspacos("( 7 - 2 ) * 3 + 4") == "(7-2)*3+4"
  {
    SemEspacosNove('(', '7', '-', '2', ')', '*', '3', '+', '4');
  }

  lemma ConversaoDemo1()
    ensures Posfixa("3 + 4") == "34+"
  {
    SemEspacosTres('3', '+', '4');
  }

  lemma ConversaoDemo2()
    ensures Posfixa("5 * 2 + 1") == "52*1+"
  {
    SemEspacosCinco('5', '*', '2', '+', '1');
    TresOperandos('5', '*', '2', '+', '1');
  }

  lemma ConversaoDemo3()
    ensures Posfixa("( 5 + 3 ) * 2") == "53+2*"
  {
    SemEspacosDemo3();
    GrupoEOperador('5', '+', '3', '*', '2');
  }

  lemma ConversaoDemo4()
    ensures Posfixa("5 + 3 * 2") == "532*+"
  {
    SemEspacosCinco('5', '+', '3', '*', '2');
    TresOperandos('5', '+', '3', '*', '2');
  }

  lemma ConversaoDemo5()
    ensures Posfixa("( 7 - 2 ) * 3 + 4") == "72-3*4+"
  {
    SemEspacosDemo5();
    GrupoEDoisOperadores('7', '-', '2', '*', '3', '+', '4');
  }

  lemma AvaliacaoDemo()
    ensures Avaliacao("34+") == Ok(7)
    ensures Avaliacao("52*1+") == Ok(11)
    ensures Avaliacao("53+2*") == Ok(16)
    ensures Avaliacao("532*+") == Ok(11)
    ensures Avaliacao("72-3*4+") == Ok(19)
  {
  }

  /** `aplicacao_calculadora`: the five infix expressions converted, and the five postfix
      expressions evaluated. */
  method AplicacaoCalculadora() returns (posfixas: seq<string>, valores: seq<Result<int, ErroExpressao>>)
    ensures posfixas == ["34+", "52*1+", "53+2*", "532*+", "72-3*4+"]
    ensures valores == [Ok(7), Ok(11), Ok(16), Ok(11), Ok(19)]
  {
    ConversaoDemo1();
    var p1 := InfixaParaPosfixa("3 + 4");
    ConversaoDemo2();
    var p2 := InfixaParaPosfixa("5 * 2 + 1");
    ConversaoDemo3();
    var p3 := InfixaParaPosfixa("( 5 + 3 ) * 2");
    ConversaoDemo4();
    var p4 := InfixaParaPosfixa("5 + 3 * 2");
    ConversaoDemo5();
    var p5 := InfixaParaPosfixa("( 7 - 2 ) * 3 + 4");
    posfixas := [p1, p2, p3, p4, p5];
    AvaliacaoDemo();
    ExemplosDeAvaliacao();
    var v1 := AvaliarPosfixa("34+");
    var v2 := AvaliarPosfixa("52*1+");
    var v3 := AvaliarPosfixa("53+2*");
    var v4 := AvaliarPosfixa("532*+");
    var v5 := AvaliarPosfixa("72-3*4+");
    valores := [v1, v2, v3, v4, v5];
  }
}
