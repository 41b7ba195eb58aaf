/** Model of `verificar_parenteses_balanceados` of Estruturas-Lineares/Pilhas/exemplo_pilha.py:
    a left-to-right scan that pushes every opening bracket and pops on every closing one.
    The scan is specified by the function `Varre`; `Aninhada` is an independent grammar of
    well-nested bracket words, and `BalanceadaSseAninhada` proves the two agree. */
module Parenteses {
  import opened Outcomes

  /** `char in '({['`; no character both opens and closes. */
  predicate Abre(c: char)
    ensures Abre(c) ==> !Fecha(c)
  {
    c == '(' || c == '[' || c == '{'
  }

  /** `char in ')}]'`. */
  predicate Fecha(c: char)
    ensures Fecha(c) ==> c != '(' && c != '[' && c != '{'
  {
    c == ')' || c == ']' || c == '}'
  }

  /** The table `mapeamento`: the opening bracket that each closing bracket expects. */
  function Par(c: char): (o: char)
    requires Fecha(c)
    ensures Abre(o)
  {
    if c == ')' then '(' else if c == '}' then '{' else '['
  }

  /** The stack (top last) left after scanning `s` from `pilha`, or None when a closing
      bracket meets an empty stack or an opening bracket of another kind. */
  function Varre(pilha: seq<char>, s: seq<char>): Option<seq<char>>
    decreases |s|
  {
    if s == [] then Some(pilha)
    else if Abre(s[0]) then Varre(pilha + [s[0]], s[1..])
    else if Fecha(s[0]) then
      if pilha == [] || pilha[|pilha| - 1] != Par(s[0]) then None
      else Varre(pilha[..|pilha| - 1], s[1..])
    else Varre(pilha, s[1..])
  }

  /** What the function answers: the scan never fails and ends with an empty stack. */
  predicate Balanceada(s: seq<char>) {
    Varre([], s) == Some([])
  }

  method VerificarParentesesBalanceados(expressao: string) returns (r: bool)
    ensures r == Balanceada(expressao)
    ensures r <==> Aninhada(SoColchetes(expressao))
  {
    BalanceadaSseAninhada(expressao);
    var pilha: seq<char> := [];
    for i := 0 to |expressao|
      invariant Varre(pilha, expressao[i..]) == Varre([], expressao)
    {
      assert expressao[i..][1..] == expressao[i + 1..];
      var c := expressao[i];
      if Abre(c) {
        pilha := pilha + [c];
      } else if Fecha(c) {
        if pilha == [] {
          return false;
        }
        var topo := pilha[|pilha| - 1];
        pilha := pilha[..|pilha| - 1];
        if topo != Par(c) {
          return false;
        }
      }
    }
    assert expressao[|expressao|..] == [];
    r := |pilha| == 0;
  }

  // ---------------------------------------------------------------------------
  // The reference definition: the grammar of well-nested bracket words.
  // ---------------------------------------------------------------------------

  /** The bracket characters of `s`, in order; every other character is dropped. */
  function SoColchetes(s: seq<char>): (r: seq<char>)
    ensures forall k :: 0 <= k < |r| ==> Abre(r[k]) || Fecha(r[k])
  {
    if s == [] then []
    else (if Abre(s[0]) || Fecha(s[0]) then [s[0]] else []) + SoColchetes(s[1..])
  }

  /** w is empty, or an opening bracket, a well-nested word, the matching closing bracket,
      and another well-nested word. */
  ghost predicate Aninhada(w: seq<char>)
    decreases |w|
  {
    || w == []
    || (&& Abre(w[0])
        && exists i :: 1 <= i < |w| && Fecha(w[i]) && Par(w[i]) == w[0]
                       && Aninhada(w[1..i]) && Aninhada(w[i + 1..]))
  }

  // ---------------------------------------------------------------------------
  // Lemmas about the scan.
  // ---------------------------------------------------------------------------

  /** Scanning `u + v` is scanning `u`, then `v` from where `u` left the stack. */
  lemma {:induction false} VarreConcat(p: seq<char>, u: seq<char>, v: seq<char>)
    ensures Varre(p, u + v) == if Varre(p, u).None? then None else Varre(Varre(p, u).value, v)
    decreases |u|
  {
    if u == [] {
      assert u + v == v;
    } else {
      assert (u + v)[0] == u[0] && (u + v)[1..] == u[1..] + v;
      if Abre(u[0]) {
        VarreConcat(p + [u[0]], u[1..], v);
      } else if Fecha(u[0]) {
        if !(p == [] || p[|p| - 1] != Par(u[0])) {
          VarreConcat(p[..|p| - 1], u[1..], v);
        }
      } else {
        VarreConcat(p, u[1..], v);
      }
    }
  }

  /** Characters other than brackets do not affect the scan. */
  lemma {:induction false} VarreIgnoraOutros(p: seq<char>, s: seq<char>)
    ensures Varre(p, s) == Varre(p, SoColchetes(s))
    decreases |s|
  {
    if s != [] {
      var r := SoColchetes(s[1..]);
      if Abre(s[0]) || Fecha(s[0]) {
        assert SoColchetes(s) == [s[0]] + r;
        assert SoColchetes(s)[0] == s[0] && SoColchetes(s)[1..] == r;
        if Abre(s[0]) {
          VarreIgnoraOutros(p + [s[0]], s[1..]);
        } else if !(p == [] || p[|p| - 1] != Par(s[0])) {
          VarreIgnoraOutros(p[..|p| - 1], s[1..]);
        }
      } else {
        assert SoColchetes(s) == r;
        VarreIgnoraOutros(p, s[1..]);
      }
    }
  }

  /** One step of the scan over an opening bracket. */
  lemma VarreAbre(p: seq<char>, o: char, x: seq<char>)
    requires Abre(o)
    ensures Varre(p, [o] + x) == Varre(p + [o], x)
  {
    assert ([o] + x)[0] == o && ([o] + x)[1..] == x;
  }

  /** One step of the scan over a closing bracket that matches the top of the stack. */
  lemma VarreFecha(p: seq<char>, c: char, x: seq<char>)
    requires Fecha(c)
    ensures Varre(p + [Par(c)], [c] + x) == Varre(p, x)
  {
    assert ([c] + x)[0] == c && ([c] + x)[1..] == x;
    assert (p + [Par(c)])[..|p|] == p;
  }

  /** Scanning one closing bracket that matches the top pops it. */
  lemma VarreFechaUm(p: seq<char>, c: char)
    requires Fecha(c) && p != [] && p[|p| - 1] == Par(c)
    ensures Varre(p, [c]) == Some(p[..|p| - 1])
  {
    assert [c][1..] == [];
  }

  /** `w + resto` split around positions 0 and `i` of `w`. */
  lemma Decompoe(w: seq<char>, i: nat, resto: seq<char>)
    requires 1 <= i < |w|
    ensures w + resto == [w[0]] + (w[1..i] + ([w[i]] + (w[i + 1..] + resto)))
  {
    var d := [w[0]] + (w[1..i] + ([w[i]] + (w[i + 1..] + resto)));
    forall k | 0 <= k < |d|
      ensures d[k] == (w + resto)[k]
    {
      if 1 <= k < i {
        assert d[k] == w[1..i][k - 1];
      } else if i < k < |w| {
        assert d[k] == w[i + 1..][k - i - 1];
      } else if |w| <= k {
        assert d[k] == resto[k - |w|];
      }
    }
  }

  /** A well-nested word leaves every stack as it found it. */
  lemma {:induction false} AninhadaPreservaPilha(w: seq<char>, p: seq<char>, resto: seq<char>)
    requires Aninhada(w)
    ensures Varre(p, w + resto) == Varre(p, resto)
    decreases |w|
  {
    if w != [] {
      var i :| 1 <= i < |w| && Fecha(w[i]) && Par(w[i]) == w[0]
               && Aninhada(w[1..i]) && Aninhada(w[i + 1..]);
      var o, a, c, b := w[0], w[1..i], w[i], w[i + 1..];
      var depois := [c] + (b + resto);
      Decompoe(w, i, resto);
      calc {
        Varre(p, w + resto);
        { VarreAbre(p, o, a + depois); }
        Varre(p + [o], a + depois);
        { AninhadaPreservaPilha(a, p + [o], depois); }
        Varre(p + [Par(c)], [c] + (b + resto));
        { VarreFecha(p, c, b + resto); }
        Varre(p, b + resto);
        { AninhadaPreservaPilha(b, p, resto); }
        Varre(p, resto);
      }
    } else {
      assert w + resto == resto;
    }
  }

  /** A scan that never empties the stack never looks at its bottom element `o`. */
  lemma {:induction false} VarreSemFundo(o: char, q: seq<char>, u: seq<char>)
    requires Varre([o] + q, u).Some?
    requires forall j :: 0 <= j <= |u| ==> Varre([o] + q, u[..j]) != Some([])
    ensures Varre(q, u).Some? && Varre([o] + q, u).value == [o] + Varre(q, u).value
    decreases |u|
  {
    if u != [] {
      var x, u' := u[0], u[1..];
      forall j | 0 <= j <= |u'|
        ensures u[..j + 1] == [x] + u'[..j]
      {
      }
      if Abre(x) {
        assert [o] + q + [x] == [o] + (q + [x]);
        forall j | 0 <= j <= |u'|
          ensures Varre([o] + (q + [x]), u'[..j]) != Some([])
        {
          VarreAbre([o] + q, x, u'[..j]);
        }
        VarreSemFundo(o, q + [x], u');
      } else if Fecha(x) {
        assert u[..1] == [x];
        VarreFechaUm([o] + q, x);
        assert q != [];
        var q' := q[..|q| - 1];
        assert [o] + q == [o] + q' + [Par(x)];
        forall j | 0 <= j <= |u'|
          ensures Varre([o] + q', u'[..j]) != Some([])
        {
          VarreFecha([o] + q', x, u'[..j]);
        }
        VarreSemFundo(o, q', u');
        assert q == q' + [Par(x)];
        VarreFecha(q', x, u');
        assert u == [x] + u';
      } else {
        forall j | 0 <= j <= |u'|
          ensures Varre([o] + q, u'[..j]) != Some([])
        {
          assert Varre([o] + q, u[..j + 1]) == Varre([o] + q, u'[..j]);
        }
        VarreSemFundo(o, q, u');
      }
    }
  }

  /** The shortest non-empty prefix of `w` (at least `k` long) that the scan from an empty
      stack closes off completely. */
  ghost function PrimeiroRetorno(w: seq<char>, k: nat): (r: nat)
    requires k <= |w| && Varre([], w) == Some([])
    ensures k <= r <= |w| && Varre([], w[..r]) == Some([])
    ensures forall j :: k <= j < r ==> Varre([], w[..j]) != Some([])
    decreases |w| - k
  {
    if k == |w| then
      assert w[..k] == w;
      k
    else if Varre([], w[..k]) == Some([]) then k
    else PrimeiroRetorno(w, k + 1)
  }

  /** A non-empty word the scan accepts splits at the bracket `w[i]` that closes `w[0]`:
      the scan accepts what lies between them and what follows. */
  lemma PrimeiroBloco(w: seq<char>) returns (i: nat)
    requires w != [] && (Abre(w[0]) || Fecha(w[0])) && Varre([], w) == Some([])
    ensures 1 <= i < |w| && Abre(w[0]) && Fecha(w[i]) && Par(w[i]) == w[0]
    ensures Varre([], w[1..i]) == Some([]) && Varre([], w[i + 1..]) == Some([])
  {
    var o := w[0];
    assert Abre(o);
    var r := PrimeiroRetorno(w, 1);
    assert w[..1] == [o] + [];
    VarreAbre([], o, []);
    i := r - 1;
    var a, c, b := w[1..i], w[i], w[i + 1..];
    assert w[..r] == [o] + (a + [c]);
    VarreAbre([], o, a + [c]);
    VarreConcat([o], a, [c]);
    assert [o] + [] == [o] && [] + [o] == [o];
    forall j | 0 <= j <= |a|
      ensures Varre([o] + [], a[..j]) != Some([])
    {
      assert w[..j + 1] == [o] + a[..j];
      VarreAbre([], o, a[..j]);
    }
    VarreSemFundo(o, [], a);
    var s' := Varre([], a).value;
    assert Varre([o] + s', [c]) == Some([]);
    assert Fecha(c) by {
      if Abre(c) {
        VarreAbre([o] + s', c, []);
      }
    }
    assert s' == [] && Par(c) == o by {
      assert [c] == [c] + [];
    }
    assert w == w[..r] + b;
    VarreConcat([], w[..r], b);
  }

  /** Every bracket word the scan accepts is well-nested. */
  lemma {:induction false} AceitaImplicaAninhada(w: seq<char>)
    requires forall k :: 0 <= k < |w| ==> Abre(w[k]) || Fecha(w[k])
    requires Varre([], w) == Some([])
    ensures Aninhada(w)
    decreases |w|
  {
    if w != [] {
      var i := PrimeiroBloco(w);
      var a, b := w[1..i], w[i + 1..];
      assert forall k :: 0 <= k < |a| ==> a[k] == w[k + 1];
      assert forall k :: 0 <= k < |b| ==> b[k] == w[k + i + 1];
      AceitaImplicaAninhada(a);
      AceitaImplicaAninhada(b);
    }
  }

  /** The scan accepts exactly the strings whose brackets are well-nested. */
  lemma BalanceadaSseAninhada(s: seq<char>)
    ensures Balanceada(s) <==> Aninhada(SoColchetes(s))
  {
    var w := SoColchetes(s);
    VarreIgnoraOutros([], s);
    if Aninhada(w) {
      AninhadaPreservaPilha(w, [], []);
      assert w + [] == w;
    }
    if Balanceada(s) {
      AceitaImplicaAninhada(w);
    }
  }

  /** The expressions checked by the bracket demonstration, with the answers the function gives. */
  method AplicacaoVerificarParenteses() returns (resultados: seq<bool>)
    ensures resultados == [true, true, true, false, false, true, false, false, false]
  {
    resultados := [];
    Demo1();
    var r1 := VerificarParentesesBalanceados("( )");
    Demo2();
    var r2 := VerificarParentesesBalanceados("( ) [ ] { }");
    Demo3();
    var r3 := VerificarParentesesBalanceados("( [ { } ] )");
    Demo4();
    var r4 := VerificarParentesesBalanceados("( [ ) ]");
    Demo5();
    var r5 := VerificarParentesesBalanceados("{ [ ( ] ) }");
    Demo6();
    var r6 := VerificarParentesesBalanceados("( ( ( ) ) )");
    Demo7();
    var r7 := VerificarParentesesBalanceados("]");
    Demo8();
    var r8 := VerificarParentesesBalanceados("[ { ( ) } ] )");
    Demo9();
    var r9 := VerificarParentesesBalanceados("{ } [ ] ) (");
    resultados := [r1, r2, r3, r4, r5, r6, r7, r8, r9];
  }

  /** `w` with a single space between consecutive characters, as the demonstration
      strings are written. */
  function Espacado(w: seq<char>): seq<char> {
    if |w| <= 1 then w else [w[0], ' '] + Espacado(w[1..])
  }

  lemma {:induction false} EspacadoConcat(u: seq<char>, v: seq<char>)
    requires u != [] && v != []
    ensures Espacado(u + v) == Espacado(u) + [' '] + Espacado(v)
    decreases |u|
  {
    if |u| == 1 {
      assert (u + v)[1..] == v;
    } else {
      assert (u + v)[1..] == u[1..] + v;
      EspacadoConcat(u[1..], v);
    }
  }

  /** The spaces between the brackets do not change the scan. */
  lemma {:induction false} VarreEspacado(p: seq<char>, w: seq<char>)
    ensures Varre(p, Espacado(w)) == Varre(p, w)
    decreases |w|
  {
    if |w| > 1 {
      var e := Espacado(w);
      assert e[0] == w[0] && e[1..][0] == ' ' && e[1..][1..] == Espacado(w[1..]);
      if Abre(w[0]) {
        VarreEspacado(p + [w[0]], w[1..]);
      } else if Fecha(w[0]) {
        if !(p == [] || p[|p| - 1] != Par(w[0])) {
          VarreEspacado(p[..|p| - 1], w[1..]);
        }
      } else {
        VarreEspacado(p, w[1..]);
      }
    }
  }

  /** Spacing out three characters. */
  lemma EspacadoTres(a: char, b: char, c: char)
    ensures Espacado([a, b, c]) == [a, ' ', b, ' ', c]
  {
    assert [a, b, c][1..] == [b, c] && [b, c][1..] == [c];
    assert Espacado([c]) == [c];
    assert Espacado([b, c]) == [b, ' ', c];
  }

  /** Spacing out six characters. */
  lemma EspacadoSeis(a: char, b: char, c: char, d: char, e: char, f: char)
    ensures Espacado([a, b, c, d, e, f]) == [a, ' ', b, ' ', c, ' ', d, ' ', e, ' ', f]
  {
    EspacadoTres(a, b, c);
    EspacadoTres(d, e, f);
    EspacadoConcat([a, b, c], [d, e, f]);
    assert [a, b, c] + [d, e, f] == [a, b, c, d, e, f];
    assert [a, ' ', b, ' ', c] + [' '] + [d, ' ', e, ' ', f]
        == [a, ' ', b, ' ', c, ' ', d, ' ', e, ' ', f];
  }

  /** Spacing out seven characters. */
  lemma EspacadoSete(a: char, b: char, c: char, d: char, e: char, f: char, g: char)
    ensures Espacado([a, b, c, d, e, f, g]) == [a, ' ', b, ' ', c, ' ', d, ' ', e, ' ', f, ' ', g]
  {
    EspacadoSeis(a, b, c, d, e, f);
    EspacadoConcat([a, b, c, d, e, f], [g]);
    assert [a, b, c, d, e, f] + [g] == [a, b, c, d, e, f, g];
    assert [a, ' ', b, ' ', c, ' ', d, ' ', e, ' ', f] + [' '] + [g]
        == [a, ' ', b, ' ', c, ' ', d, ' ', e, ' ', f, ' ', g];
  }

  // Helpers of `AplicacaoVerificarParenteses`: how the scan answers on the bracket words of
  // the longer demonstration strings.
  /** A run of opening brackets is pushed onto the stack as it stands. */
  lemma {:induction false} VarreAbertos(p: seq<char>, u: seq<char>)
    requires forall k :: 0 <= k < |u| ==> Abre(u[k])
    ensures Varre(p, u) == Some(p + u)
    decreases |u|
  {
    if u == [] {
      assert p + u == p;
    } else {
      VarreAbertos(p + [u[0]], u[1..]);
      assert p + [u[0]] + u[1..] == p + u;
    }
  }

  /** A matched pair leaves the stack as it found it. */
  lemma VarrePar(p: seq<char>, o: char, c: char)
    requires Abre(o) && Fecha(c) && Par(c) == o
    ensures Varre(p, [o, c]) == Some(p)
  {
    VarreAbre(p, o, [c]);
    VarreFecha(p, c, []);
    assert [o, c] == [o] + [c] && [c] == [c] + [];
  }

  lemma Palavra2() ensures Balanceada("()[]{}") {
    VarrePar([], '(', ')');
    VarrePar([], '[', ']');
    VarrePar([], '{', '}');
    VarreConcat([], "()", "[]");
    VarreConcat([], "()[]", "{}");
    assert "()" + "[]" == "()[]" && "()[]" + "{}" == "()[]{}";
  }
  lemma Palavra3() ensures Balanceada("([{}])") {
    VarreAbertos([], "([{");
    assert [] + "([{" == "([{";
    assert Varre("([{", "}])") == Some([]);
    VarreConcat([], "([{", "}])");
    assert "([{" + "}])" == "([{}])";
  }
  lemma Palavra5() ensures !Balanceada("{[(])}") {
    VarreAbertos([], "{[(");
    assert [] + "{[(" == "{[(";
    assert Varre("{[(", "])}") == None;
    VarreConcat([], "{[(", "])}");
    assert "{[(" + "])}" == "{[(])}";
  }
  lemma Palavra6() ensures Balanceada("((()))") {
    VarreAbertos([], "(((");
    assert [] + "(((" == "(((";
    assert Varre("(((", ")))") == Some([]);
    VarreConcat([], "(((", ")))");
    assert "(((" + ")))" == "((()))";
  }
  lemma Palavra8() ensures !Balanceada("[{()}])") {
    VarreAbertos([], "[{(");
    assert [] + "[{(" == "[{(";
    assert Varre("[{(", ")}]") == Some([]);
    assert Varre([], ")") == None;
    VarreConcat([], "[{(", ")}]");
    VarreConcat([], "[{()}]", ")");
    assert "[{(" + ")}]" == "[{()}]";
    assert "[{()}]" + ")" == "[{()}])";
  }
  lemma Palavra9() ensures !Balanceada("{}[])(") {
    VarrePar([], '{', '}');
    VarrePar([], '[', ']');
    VarreConcat([], "{}", "[]");
    assert Varre([], ")(") == None;
    VarreConcat([], "{}[]", ")(");
    assert "{}" + "[]" == "{}[]" && "{}[]" + ")(" == "{}[])(";
  }

  // Helpers of `AplicacaoVerificarParenteses`: the nine demonstration strings, one lemma each.
  lemma Demo1() ensures Balanceada("( )") { }
  lemma Demo2() ensures Balanceada("( ) [ ] { }") {
    EspacadoSeis('(', ')', '[', ']', '{', '}');
    Palavra2();
    VarreEspacado([], "()[]{}");
  }
  lemma Demo3() ensures Balanceada("( [ { } ] )") {
    EspacadoSeis('(', '[', '{', '}', ']', ')');
    Palavra3();
    VarreEspacado([], "([{}])");
  }
  lemma Demo4() ensures !Balanceada("( [ ) ]") { }
  lemma Demo5() ensures !Balanceada("{ [ ( ] ) }") {
    EspacadoSeis('{', '[', '(', ']', ')', '}');
    Palavra5();
    VarreEspacado([], "{[(])}");
  }
  lemma Demo6() ensures Balanceada("( ( ( ) ) )") {
    EspacadoSeis('(', '(', '(', ')', ')', ')');
    Palavra6();
    VarreEspacado([], "((()))");
  }
  lemma Demo7() ensures !Balanceada("]") { }
  lemma Demo8() ensures !Balanceada("[ { ( ) } ] )") {
    EspacadoSete('[', '{', '(', ')', '}', ']', ')');
    Palavra8();
    VarreEspacado([], "[{()}])");
  }
  lemma Demo9() ensures !Balanceada("{ } [ ] ) (") {
    EspacadoSeis('{', '}', '[', ']', ')', '(');
    Palavra9();
    VarreEspacado([], "{}[])(");
  }

  /** The empty string is balanced; a lone closer and crossed pairs are not. */
  lemma ExemplosDeParenteses()
    ensures Balanceada("")
    ensures !Balanceada("]")
    ensures !Balanceada("( [ ) ]")
  {
  }
}
