# EstruturasData — a verified model of its linear data structures

EstruturasData is a set of Python teaching scripts about linear data structures. This project
models their algorithmic core in Dafny and proves what the scripts promise:

- **Queues** (`Filas`, `filas.dfy`):
  - `FilaLista`, a list whose dequeue shifts the rest forward;
  - `FilaEncadeada`, a singly linked queue with `inicio`, `fim` and a size counter;
  - `FilaCircular`, a fixed-capacity ring buffer over an array whose free slots hold `None`.
- **Stacks** (`Pilhas`, `pilhas.dfy`): `PilhaLista` and the linked `PilhaEncadeada`.
- **Bracket matching** (`Parenteses`, `parenteses.dfy`): `verificar_parenteses_balanceados`.
  It is proved equivalent to a grammar of well-nested bracket words.
- **The calculator** (`Expressoes`, `expressoes.dfy`):
  - `infixa_para_posfixa`, the shunting-yard conversion with the precedence table `+ - * / ^`;
  - `avaliar_posfixa`, the postfix evaluator over single digits;
  - a round trip through both, checked against expression trees: for fully parenthesised text,
    and for text with only the parentheses precedence and left-to-right grouping need.
- **Singly linked lists** (two independent copies, as in the repository):
  - `Listas`, `listas.dfy`: positional insert, remove and get, and `buscar`;
  - `AlocacaoDinamica`, `alocacao_dinamica.dfy`: insert at either end, and remove the first
    node holding a value.
- **The hospital triage queue** (`SolucaoPratica`, `solucao_pratica.dfy`): `FilaPrioridade`.
  It keeps patients sorted by (prioridade, hora_chegada).
- **Frequency counting** (`Contagem`, `contagem.dfy`): the four counting routines of
  `exemplo_performance.py`. All are proved to agree with one reference definition.

Python exceptions become values of a `Result` datatype (module `Outcomes`, `outcomes.dfy`).
The error constructors are `FilaVazia`, `FilaCheia`, `PilhaVazia`, `ListaVazia`,
`PosicaoInvalida` and `ExpressaoInvalida`. Functions that return `None` return an `Option`.
Every error path of the source is modelled; no operation gains a precondition for it. The only
`requires` that stand for a caller's guarantee are listed under "Left out".

Objects that the scripts update in place are classes:

- List-backed containers hold a `seq` field that the methods reassign.
- The ring buffer keeps an `array`.
- Linked structures are chains of `No` objects. Each container tracks its chain with ghost
  `Contents`, `Nodes` and `Repr`.
- `Valid()` states the shape: the nodes are distinct and linked in order; the last one points
  to null; head and tail pointers are right; the size counter equals the number of nodes.

Each loop of the source is a `while` or `for` loop here, proved against a specification
function (`Varre`, `Converte`, `Avalia`, `Inserida`, `Distintos`, `Frequencias`, ...). The
specification functions are then related to independent references by lemmas:

- the bracket scan to the nesting grammar `Aninhada`;
- the conversion and the evaluator to expression trees;
- the counting routines to `multiset` counts.

## Model

Source paths are relative to the repository root.

| member | source | states |
|---|---|---|
| Filas.FilaLista.constructor | Estruturas-Lineares/Filas/exemplo_fila.py:22-23 | a new queue is empty |
| Filas.FilaLista.EstaVazia | Estruturas-Lineares/Filas/exemplo_fila.py:25-26 | true exactly when no item is queued |
| Filas.FilaLista.Enfileirar | Estruturas-Lineares/Filas/exemplo_fila.py:28-30 | the item is appended at the back, the others unchanged |
| Filas.FilaLista.Desenfileirar | Estruturas-Lineares/Filas/exemplo_fila.py:32-36 | empty queue: FilaVazia, nothing changes; otherwise returns the front item and the rest keep their order |
| Filas.FilaLista.Frente | Estruturas-Lineares/Filas/exemplo_fila.py:38-42 | FilaVazia on an empty queue, else the front item, without removing it |
| Filas.FilaLista.Tamanho | Estruturas-Lineares/Filas/exemplo_fila.py:44-46 | the number of queued items |
| Filas.FilaListaFifo | Estruturas-Lineares/Filas/exemplo_fila.py:28-36 | enqueuing any sequence and draining gives it back in the same order (FIFO) |
| Filas.No.constructor | Estruturas-Lineares/Filas/exemplo_fila.py:52-54 | a new node holds the given value and has no successor |
| Filas.FilaEncadeada.constructor | Estruturas-Lineares/Filas/exemplo_fila.py:60-63 | a new queue is empty and well formed (both ends null, size 0) |
| Filas.FilaEncadeada.EstaVazia | Estruturas-Lineares/Filas/exemplo_fila.py:65-66 | `inicio` is null exactly when the queue holds nothing |
| Filas.FilaEncadeada.Enfileirar | Estruturas-Lineares/Filas/exemplo_fila.py:68-78 | appends the item and raises the size by one; into an empty queue the new node is both `inicio` and `fim`; the chain invariant is kept |
| Filas.FilaEncadeada.Desenfileirar | Estruturas-Lineares/Filas/exemplo_fila.py:80-92 | empty: FilaVazia, nothing changes; else returns the front value, drops it, lowers the size; `fim` becomes null with the last node |
| Filas.FilaEncadeada.Frente | Estruturas-Lineares/Filas/exemplo_fila.py:94-98 | FilaVazia on empty, else the front value |
| Filas.FilaEncadeada.Tamanho | Estruturas-Lineares/Filas/exemplo_fila.py:100-102 | the counter equals the number of linked nodes |
| Filas.EnfileirarEncadeada | Estruturas-Lineares/Filas/exemplo_fila.py:68-78 | enqueuing a sequence into a new queue leaves exactly that sequence queued |
| Filas.EsvaziarEncadeada | Estruturas-Lineares/Filas/exemplo_fila.py:80-92 | dequeuing until empty yields the queued values front first |
| Filas.FilaEncadeadaFifo | Estruturas-Lineares/Filas/exemplo_fila.py:68-98 | the linked queue is FIFO: values leave in the order they were enqueued |
| Filas.FilaCircular.constructor | Estruturas-Lineares/Filas/exemplo_fila.py:108-113 | all slots None, `inicio` = `fim` = 0, size 0 |
| Filas.FilaCircular.EstaVazia | Estruturas-Lineares/Filas/exemplo_fila.py:115-116 | true exactly when nothing is queued |
| Filas.FilaCircular.EstaCheia | Estruturas-Lineares/Filas/exemplo_fila.py:118-119 | true exactly when the size equals the capacity |
| Filas.FilaCircular.Enfileirar | Estruturas-Lineares/Filas/exemplo_fila.py:121-128 | full: FilaCheia before any write, array and fields unchanged; else appends, `fim` advances modulo the capacity; the window invariant `fim == (inicio + tamanho) % capacidade` is kept |
| Filas.FilaCircular.Desenfileirar | Estruturas-Lineares/Filas/exemplo_fila.py:130-139 | empty: FilaVazia, nothing changes; else returns the front value, resets its slot to None, `inicio` advances modulo the capacity |
| Filas.FilaCircular.Frente | Estruturas-Lineares/Filas/exemplo_fila.py:141-145 | FilaVazia on empty, else the front value |
| Filas.FilaCircular.Tamanho | Estruturas-Lineares/Filas/exemplo_fila.py:147-149 | the number of queued values |
| Filas.EncherFilaCircular | Estruturas-Lineares/Filas/exemplo_fila.py:245-253 | capacity 5 after enqueuing 1..5: full, `inicio` = `fim` = 0 |
| Filas.RetirarTres | Estruturas-Lineares/Filas/exemplo_fila.py:261-264 | three dequeues give 1, 2, 3 and move `inicio` to slot 3 |
| Filas.DarAVolta | Estruturas-Lineares/Filas/exemplo_fila.py:266-272 | enqueuing 6, 7, 8 wraps `fim` around to slot 3 |
| Filas.Esvaziar | Estruturas-Lineares/Filas/exemplo_fila.py:274-277 | draining yields the queued values in order and leaves the buffer empty |
| Filas.DemoFilaCircular | Estruturas-Lineares/Filas/exemplo_fila.py:240-277 | the demonstration: 6 is rejected with FilaCheia, the values come out 1..8, and `inicio` = `fim` = 3 at the end |
| Pilhas.Invertida | Estruturas-Lineares/Pilhas/exemplo_pilha.py:29-33 | the reversal that LIFO order promises: same length, element k is element n-1-k |
| Pilhas.PilhaLista.constructor | Estruturas-Lineares/Pilhas/exemplo_pilha.py:18-19 | a new stack is empty |
| Pilhas.PilhaLista.EstaVazia | Estruturas-Lineares/Pilhas/exemplo_pilha.py:21-23 | true exactly when no item is stacked |
| Pilhas.PilhaLista.Empilhar | Estruturas-Lineares/Pilhas/exemplo_pilha.py:25-27 | the item goes on top |
| Pilhas.PilhaLista.Desempilhar | Estruturas-Lineares/Pilhas/exemplo_pilha.py:29-33 | empty: PilhaVazia, nothing changes; else returns the top item and removes only it |
| Pilhas.PilhaLista.Topo | Estruturas-Lineares/Pilhas/exemplo_pilha.py:35-39 | PilhaVazia on empty, else the top item, nothing removed |
| Pilhas.PilhaLista.Tamanho | Estruturas-Lineares/Pilhas/exemplo_pilha.py:41-43 | the number of stacked items |
| Pilhas.PilhaListaDesfaz | Estruturas-Lineares/Pilhas/exemplo_pilha.py:25-33 | popping right after pushing x returns x and restores the previous contents |
| Pilhas.PilhaListaLifo | Estruturas-Lineares/Pilhas/exemplo_pilha.py:25-33 | pushing a sequence and popping until empty yields it reversed |
| Pilhas.No.constructor | Estruturas-Lineares/Pilhas/exemplo_pilha.py:49-51 | a new node holds the given value and has no successor |
| Pilhas.PilhaEncadeada.constructor | Estruturas-Lineares/Pilhas/exemplo_pilha.py:57-59 | a new stack is empty and well formed |
| Pilhas.PilhaEncadeada.EstaVazia | Estruturas-Lineares/Pilhas/exemplo_pilha.py:61-63 | `topo_no` is null exactly when the stack holds nothing |
| Pilhas.PilhaEncadeada.Empilhar | Estruturas-Lineares/Pilhas/exemplo_pilha.py:65-70 | a new node in front holds the item, the size grows by one, the chain invariant is kept |
| Pilhas.PilhaEncadeada.Desempilhar | Estruturas-Lineares/Pilhas/exemplo_pilha.py:72-80 | empty: PilhaVazia, nothing changes; else returns the top value, unlinks it, lowers the size |
| Pilhas.PilhaEncadeada.Topo | Estruturas-Lineares/Pilhas/exemplo_pilha.py:82-86 | PilhaVazia on empty, else the top value |
| Pilhas.PilhaEncadeada.Tamanho | Estruturas-Lineares/Pilhas/exemplo_pilha.py:88-90 | the counter equals the chain length from `topo_no` |
| Pilhas.PilhaEncadeadaDesfaz | Estruturas-Lineares/Pilhas/exemplo_pilha.py:65-80 | popping right after pushing x returns x and restores the previous contents |
| Pilhas.PilhaEncadeadaLifo | Estruturas-Lineares/Pilhas/exemplo_pilha.py:65-80 | pushing a sequence and popping until empty yields it reversed |
| Parenteses.Abre | Estruturas-Lineares/Pilhas/exemplo_pilha.py:192 | `char in '({['`; no opening bracket is also a closing one, so the two branches of the scan never overlap |
| Parenteses.Fecha | Estruturas-Lineares/Pilhas/exemplo_pilha.py:195 | `char in ')}]'`; a closing bracket is never one of the three opening ones |
| Parenteses.Par | Estruturas-Lineares/Pilhas/exemplo_pilha.py:188 | every closing bracket maps to an opening one |
| Parenteses.SoColchetes | Estruturas-Lineares/Pilhas/exemplo_pilha.py:190-195 | keeps only the six bracket characters; the loop ignores every other character |
| Parenteses.Varre | Estruturas-Lineares/Pilhas/exemplo_pilha.py:190-201 | the loop as a function (definition, no contract): the stack, top last, after scanning from a given stack; opening brackets pushed, a closing bracket pops its own opening one, and None when it meets an empty stack or another kind |
| Parenteses.Balanceada | Estruturas-Lineares/Pilhas/exemplo_pilha.py:203-204 | the answer (definition, no contract): the scan from an empty stack does not fail and ends with an empty stack |
| Parenteses.VerificarParentesesBalanceados | Estruturas-Lineares/Pilhas/exemplo_pilha.py:182-204 | the loop computes the stack scan; its answer is true exactly when the brackets of the input, other characters ignored, form a well-nested word |
| Parenteses.VarreConcat | Estruturas-Lineares/Pilhas/exemplo_pilha.py:190-201 | scanning u + v is scanning u, then v from the stack u left (failure propagates) |
| Parenteses.VarreIgnoraOutros | Estruturas-Lineares/Pilhas/exemplo_pilha.py:190-195 | characters other than brackets do not affect the scan |
| Parenteses.AninhadaPreservaPilha | Estruturas-Lineares/Pilhas/exemplo_pilha.py:190-201 | a well-nested word leaves any stack exactly as it found it |
| Parenteses.VarreSemFundo | Estruturas-Lineares/Pilhas/exemplo_pilha.py:190-201 | a scan that never empties the stack down to its bottom element does not depend on that element |
| Parenteses.PrimeiroBloco | Estruturas-Lineares/Pilhas/exemplo_pilha.py:190-204 | an accepted non-empty word splits at the bracket closing its first one, both parts accepted |
| Parenteses.AceitaImplicaAninhada | Estruturas-Lineares/Pilhas/exemplo_pilha.py:190-204 | every bracket word the scan accepts is well nested |
| Parenteses.BalanceadaSseAninhada | Estruturas-Lineares/Pilhas/exemplo_pilha.py:182-204 | accepted if and only if the bracket subsequence is well nested |
| Parenteses.VarreEspacado | Estruturas-Lineares/Pilhas/exemplo_pilha.py:190-195 | spaces between characters do not change the scan |
| Parenteses.ExemplosDeParenteses | Estruturas-Lineares/Pilhas/exemplo_pilha.py:197-204 | "" is balanced; "]" and "( [ ) ]" are not |
| Parenteses.AplicacaoVerificarParenteses | Estruturas-Lineares/Pilhas/exemplo_pilha.py:212-225 | the nine demonstration strings give true, true, true, false, false, true, false, false, false |
| Expressoes.EhAlnum | Estruturas-Lineares/Pilhas/exemplo_pilha.py:255 | `token.isalnum()` on ASCII; an operand is never a parenthesis or a space |
| Expressoes.EhDigito | Estruturas-Lineares/Pilhas/exemplo_pilha.py:295 | `token.isdigit()` on ASCII; every digit is also alphanumeric, so the evaluator's operands are operands of the conversion |
| Expressoes.ValorDigito | Estruturas-Lineares/Pilhas/exemplo_pilha.py:296 | `int(token)` of a digit lies in 0..9 |
| Expressoes.ValorDigitoIdaVolta | Estruturas-Lineares/Pilhas/exemplo_pilha.py:296 | `int(token)` is one-to-one on digits: the digit of its value is the token itself (the converse is the contract of `Algarismo`) |
| Expressoes.NaTabela | Estruturas-Lineares/Pilhas/exemplo_pilha.py:274 | membership in `precedencia`: holds exactly for the evaluator's five operators, and never for an operand or a parenthesis |
| Expressoes.Precedencia | Estruturas-Lineares/Pilhas/exemplo_pilha.py:245 | table operators get 1 to 3, every other character 0 (the `get(token, 0)` default) |
| Expressoes.SemEspacos | Estruturas-Lineares/Pilhas/exemplo_pilha.py:251 | `replace(" ", "")` (definition, no contract; its properties are `SemEspacosPreserva`) |
| Expressoes.FechaGrupo | Estruturas-Lineares/Pilhas/exemplo_pilha.py:263-269 | the ')' loop as a function (definition, no contract): pops to the output until '(' is on top, then drops that '(' if there is one |
| Expressoes.Cede | Estruturas-Lineares/Pilhas/exemplo_pilha.py:273-275 | the operator loop's condition (definition, no contract): the top is not '(' and is off the table or has precedence at least the token's |
| Expressoes.Desempilha | Estruturas-Lineares/Pilhas/exemplo_pilha.py:273-276 | the operator loop as a function (definition, no contract): pops to the output while `Cede` holds |
| Expressoes.Passo | Estruturas-Lineares/Pilhas/exemplo_pilha.py:253-277 | one iteration (definition, no contract): operand to the output, '(' pushed, ')' by `FechaGrupo`, any other character by `Desempilha` then pushed |
| Expressoes.Converte | Estruturas-Lineares/Pilhas/exemplo_pilha.py:253-277 | the conversion loop as a left fold of `Passo` (definition, no contract) |
| Expressoes.Esvazia | Estruturas-Lineares/Pilhas/exemplo_pilha.py:280-281 | the final loop (definition, no contract): the remaining stack goes to the output, top first |
| Expressoes.PosfixaDeTokens | Estruturas-Lineares/Pilhas/exemplo_pilha.py:253-283 | the output for a string already without spaces: `Esvazia` after `Converte` from an empty stack (definition, no contract; see `TresOperandos`, `CalculadoraMinima`) |
| Expressoes.Posfixa | Estruturas-Lineares/Pilhas/exemplo_pilha.py:239-283 | what the function returns (definition, no contract): `PosfixaDeTokens` of the input without spaces |
| Expressoes.OperandosConcat | Estruturas-Lineares/Pilhas/exemplo_pilha.py:255-256 | the operand subsequence distributes over concatenation |
| Expressoes.SemEspacosPreserva | Estruturas-Lineares/Pilhas/exemplo_pilha.py:251 | removing spaces leaves no space, keeps every other character's count and the operands in order |
| Expressoes.FechaGrupoPrefixo | Estruturas-Lineares/Pilhas/exemplo_pilha.py:263-269 | the ')' loop leaves a prefix of the stack, empty when no '(' was on it |
| Expressoes.FechaGrupoConteudo | Estruturas-Lineares/Pilhas/exemplo_pilha.py:263-269 | the ')' loop moves popped characters to the output and drops at most one '(' |
| Expressoes.DesempilhaPrefixo | Estruturas-Lineares/Pilhas/exemplo_pilha.py:273-276 | the operator loop leaves a prefix of the stack whose top does not yield to the token |
| Expressoes.DesempilhaConteudo | Estruturas-Lineares/Pilhas/exemplo_pilha.py:273-276 | the operator loop outputs exactly what it pops |
| Expressoes.EsvaziaConteudo | Estruturas-Lineares/Pilhas/exemplo_pilha.py:280-281 | the final drain outputs exactly the stack's contents |
| Expressoes.FecharGrupo | Estruturas-Lineares/Pilhas/exemplo_pilha.py:263-269 | the ')' loop as written computes `FechaGrupo` |
| Expressoes.DesempilharOperadores | Estruturas-Lineares/Pilhas/exemplo_pilha.py:273-276 | the operator loop as written computes `Desempilha`, popping while the top is not '(' and is off the table or has precedence >= the token's |
| Expressoes.InfixaParaPosfixa | Estruturas-Lineares/Pilhas/exemplo_pilha.py:239-283 | returns `Posfixa(expressao)`; the operands come out in input order; every other non-parenthesis, non-space character appears as often as in the input; no ')' or space is output |
| Expressoes.ConverteConcat | Estruturas-Lineares/Pilhas/exemplo_pilha.py:253-277 | converting a + b is converting a, then b from the resulting state |
| Expressoes.ConverteOperandos | Estruturas-Lineares/Pilhas/exemplo_pilha.py:253-277 | the loop never stacks an operand and appends the operands in input order |
| Expressoes.ConverteConteudo | Estruturas-Lineares/Pilhas/exemplo_pilha.py:253-277 | every input character other than parentheses ends up once on the stack or the output; ')' never does |
| Expressoes.PosfixaOperandos | Estruturas-Lineares/Pilhas/exemplo_pilha.py:251-283 | the conversion keeps the operands in input order |
| Expressoes.PosfixaConteudo | Estruturas-Lineares/Pilhas/exemplo_pilha.py:251-283 | the output holds each non-parenthesis, non-space character as often as the input, and never ')' or a space |
| Expressoes.PosfixaPreserva | Estruturas-Lineares/Pilhas/exemplo_pilha.py:251-283 | both of the above together |
| Expressoes.TresOperandos | Estruturas-Lineares/Pilhas/exemplo_pilha.py:271-281 | for x p y q z: q pops p exactly when prec(q) <= prec(p), giving xyp zq, else xyzqp |
| Expressoes.ExemplosDePrecedencia | Estruturas-Lineares/Pilhas/exemplo_pilha.py:242-275 | "A + B * C" gives "ABC*+"; "2^3^2" gives "23^2^", so `^` groups to the left |
| Expressoes.GrupoEOperador | Estruturas-Lineares/Pilhas/exemplo_pilha.py:259-281 | "(x p y) q z" gives x y p z q |
| Expressoes.GrupoEDoisOperadores | Estruturas-Lineares/Pilhas/exemplo_pilha.py:259-281 | "(x p y) q z r w" gives the order the precedences of q and r decide |
| Expressoes.ConversaoDemo5 | Estruturas-Lineares/Pilhas/exemplo_pilha.py:336-341 | "( 7 - 2 ) * 3 + 4" gives "72-3*4+" |
| Expressoes.Pot | Estruturas-Lineares/Pilhas/exemplo_pilha.py:317 | `a ** b` for b >= 0: at least 1 for a base of at least 1; 0 ** 0 is 1 and 0 ** b is 0 otherwise |
| Expressoes.PotSoma | Estruturas-Lineares/Pilhas/exemplo_pilha.py:317 | exponents add: a ** (m + n) == a ** m * a ** n for all a, m, n |
| Expressoes.EhOperacao | Estruturas-Lineares/Pilhas/exemplo_pilha.py:298 | `token in '+-*/^'`; no operator is a digit, so the digit and operator branches never overlap |
| Expressoes.Aplica | Estruturas-Lineares/Pilhas/exemplo_pilha.py:308-317 | `a op b`; an error, ForaDoModelo, exactly for `/` and for `^` with a negative exponent, whose Python results are floats |
| Expressoes.Avalia | Estruturas-Lineares/Pilhas/exemplo_pilha.py:293-317 | the evaluation loop as a function (definition, no contract): digits pushed, an operator with fewer than two values is ExpressaoInvalida, else it pops b then a and pushes `Aplica(op, a, b)`, other characters skipped |
| Expressoes.Avaliacao | Estruturas-Lineares/Pilhas/exemplo_pilha.py:319-323 | what the function returns or raises (definition, no contract): the single value left, ExpressaoInvalida when the final stack does not hold exactly one |
| Expressoes.AvaliarPosfixa | Estruturas-Lineares/Pilhas/exemplo_pilha.py:286-323 | the loop computes `Avaliacao`: digits pushed, each operator pops b then a and pushes a op b, too few operands or a final stack size other than 1 gives ExpressaoInvalida |
| Expressoes.OrdemDosOperandos | Estruturas-Lineares/Pilhas/exemplo_pilha.py:304-317 | "x y op" evaluates to x op y: the value popped first is the right operand |
| Expressoes.OperadorSemOperandos | Estruturas-Lineares/Pilhas/exemplo_pilha.py:299-302 | an operator met with fewer than two values is ExpressaoInvalida, whatever follows |
| Expressoes.ExemplosDeAvaliacao | Estruturas-Lineares/Pilhas/exemplo_pilha.py:293-323 | "3" gives 3, "53+2*" gives 16, "3+" is ExpressaoInvalida |
| Expressoes.ConverteInfixa | Estruturas-Lineares/Pilhas/exemplo_pilha.py:253-277 | converting the fully parenthesised text of a tree appends that tree's postfix text and leaves the stack as it was |
| Expressoes.AvaliaPosfixaDe | Estruturas-Lineares/Pilhas/exemplo_pilha.py:293-317 | evaluating a tree's postfix text pushes that tree's value, or fails with its error |
| Expressoes.CalculadoraIdaVolta | Estruturas-Lineares/Pilhas/exemplo_pilha.py:239-323 | for every expression tree, converting its parenthesised infix text and evaluating the result gives the tree's value |
| Expressoes.InfixaMinima | Estruturas-Lineares/Pilhas/exemplo_pilha.py:271-277 | the infix text of a tree with parentheses only where the conversion's rule needs them: around a left operand binding more loosely than its operator, around a right operand binding no more tightly; it holds no space |
| Expressoes.PendentesLimitados | Estruturas-Lineares/Pilhas/exemplo_pilha.py:271-277 | after the text of a tree the stack holds only table operators binding at least as tightly as the tree |
| Expressoes.PendentesCompletam | Estruturas-Lineares/Pilhas/exemplo_pilha.py:271-281 | popping the operators left on the stack after the text of a tree completes its postfix text |
| Expressoes.DesempilhaPendentes | Estruturas-Lineares/Pilhas/exemplo_pilha.py:273-277 | the operator loop pops exactly the operators binding at least as tightly as the token, and stops at '(' or a looser operator |
| Expressoes.FechaPendentes | Estruturas-Lineares/Pilhas/exemplo_pilha.py:263-269 | ')' pops every operator above the matching '(' and drops it |
| Expressoes.EsvaziaPendentes | Estruturas-Lineares/Pilhas/exemplo_pilha.py:280-281 | the final loop outputs the stack top first |
| Expressoes.ConverteGrupo | Estruturas-Lineares/Pilhas/exemplo_pilha.py:259-269 | a parenthesised operand: the conversion outputs its postfix text and leaves the stack as it found it |
| Expressoes.ConverteMinima | Estruturas-Lineares/Pilhas/exemplo_pilha.py:253-277 | over a stack whose top holds, the conversion reads the minimal text of a tree, outputs all of its postfix text but the pending operators, and leaves those on the stack |
| Expressoes.ConverteOperacao | Estruturas-Lineares/Pilhas/exemplo_pilha.py:271-277 | the same for an operator node: left operand, the operator loop on `op`, right operand |
| Expressoes.ConverteEsquerdo | Estruturas-Lineares/Pilhas/exemplo_pilha.py:271-276 | after a left operand, the operator loop on `op` leaves the stack as it was and has output the operand's postfix text |
| Expressoes.ConverteDireito | Estruturas-Lineares/Pilhas/exemplo_pilha.py:253-277 | a right operand read over its operator, in parentheses or not |
| Expressoes.CalculadoraMinima | Estruturas-Lineares/Pilhas/exemplo_pilha.py:239-323 | for every expression tree, converting its text with only the needed parentheses gives its postfix text, and evaluating that gives its value: the round trip honours precedence and left-to-right grouping, `^` included |
| Expressoes.InfixaMinimaDoisOperadores | Estruturas-Lineares/Pilhas/exemplo_pilha.py:245 | two operators over three digits are written without parentheses exactly when the tree groups as precedence and left-to-right grouping read the text |
| Expressoes.AvaliacaoDemo | Estruturas-Lineares/Pilhas/exemplo_pilha.py:347-350 | the five demonstration postfix strings evaluate to 7, 11, 16, 11, 19 |
| Expressoes.AplicacaoCalculadora | Estruturas-Lineares/Pilhas/exemplo_pilha.py:326-356 | the demonstration converts the five infix strings to "34+", "52*1+", "53+2*", "532*+", "72-3*4+" and evaluates them to 7, 11, 16, 11, 19 |
| Listas.No.constructor | Estruturas-Lineares/Listas/exemplo_lista.py:77-79 | a new node holds the given datum and has no successor |
| Listas.ListaEncadeada.constructor | Estruturas-Lineares/Listas/exemplo_lista.py:87-89 | a new list is empty and well formed |
| Listas.ListaEncadeada.EstaVazia | Estruturas-Lineares/Listas/exemplo_lista.py:91-93 | `inicio` is null exactly when the list holds nothing |
| Listas.ListaEncadeada.InserirInicio | Estruturas-Lineares/Listas/exemplo_lista.py:95-100 | the value becomes element 0, the rest shift, the size grows by one |
| Listas.ListaEncadeada.InserirFim | Estruturas-Lineares/Listas/exemplo_lista.py:102-114 | walks to the last node and appends; the size grows by one |
| Listas.ListaEncadeada.InserirPosicao | Estruturas-Lineares/Listas/exemplo_lista.py:116-135 | PosicaoInvalida if and only if posicao < 0 or posicao > tamanho, nothing changed; otherwise the value lands at index posicao and everything else keeps its order |
| Listas.ListaEncadeada.LigarDepois | Estruturas-Lineares/Listas/exemplo_lista.py:125-135 | linking a new node after node k inserts the value at index k + 1 and keeps the chain invariant |
| Listas.ListaEncadeada.RemoverInicio | Estruturas-Lineares/Listas/exemplo_lista.py:137-145 | ListaVazia on empty, nothing changed; else returns and removes only the first element |
| Listas.ListaEncadeada.RemoverFim | Estruturas-Lineares/Listas/exemplo_lista.py:147-167 | ListaVazia on empty; else returns and removes only the last element, the single-node case included |
| Listas.ListaEncadeada.RemoverPosicao | Estruturas-Lineares/Listas/exemplo_lista.py:169-190 | ListaVazia on an empty list first; then PosicaoInvalida unless 0 <= posicao < tamanho; else returns element posicao and the rest keep their order |
| Listas.ListaEncadeada.DesligarProximo | Estruturas-Lineares/Listas/exemplo_lista.py:187-190 | unlinking the node after node k removes exactly element k + 1 and keeps the chain invariant |
| Listas.ListaEncadeada.Buscar | Estruturas-Lineares/Listas/exemplo_lista.py:192-203 | -1 exactly when the value is absent, else the index of its first occurrence |
| Listas.ListaEncadeada.Obter | Estruturas-Lineares/Listas/exemplo_lista.py:205-217 | element posicao when 0 <= posicao < tamanho, else PosicaoInvalida |
| Listas.ListaEncadeada.Elementos | Estruturas-Lineares/Listas/exemplo_lista.py:225-229 | the walk from `inicio` visits exactly the listed values, in order |
| Listas.InserirRemoverPosicao | Estruturas-Lineares/Listas/exemplo_lista.py:116-190 | removing at the position just inserted at returns the inserted value and restores the list |
| Listas.BuscarObter | Estruturas-Lineares/Listas/exemplo_lista.py:192-217 | getting the index `buscar` found returns the value searched for |
| Listas.ListaDemonstrada | Estruturas-Lineares/Listas/exemplo_lista.py:239-260 | the demonstration's inserts build 10, 20, 25, 30, 40 |
| Listas.DemonstrarListaEncadeada | Estruturas-Lineares/Listas/exemplo_lista.py:234-287 | `buscar(25)` gives 2, `obter(3)` gives 30, the removals give 10, 40, 25 and leave 20, 30 |
| Listas.InsercaoEncadeada | Estruturas-Lineares/Listas/exemplo_lista.py:133-134 | splicing a node in after node k keeps every node linked to the next |
| Listas.RemocaoEncadeada | Estruturas-Lineares/Listas/exemplo_lista.py:188 | bypassing node k + 1 keeps every remaining node linked to the next |
| AlocacaoDinamica.SemPrimeiroEm | Conceitos-Fundamentais/Alocacao-Dinamica/exemplo_dinamica.py:66-80 | removing the first occurrence, found at index k, keeps everything before and after it |
| AlocacaoDinamica.SemPrimeiroAusente | Conceitos-Fundamentais/Alocacao-Dinamica/exemplo_dinamica.py:72-82 | when the value does not occur, nothing is removed |
| AlocacaoDinamica.SemPrimeiroMultiset | Conceitos-Fundamentais/Alocacao-Dinamica/exemplo_dinamica.py:60-82 | exactly one copy of a present value disappears, and nothing else changes |
| AlocacaoDinamica.SemPrimeiro | Conceitos-Fundamentais/Alocacao-Dinamica/exemplo_dinamica.py:60-82 | the list after `remover(valor)`: one element shorter when the value occurs, the same length otherwise (`SemPrimeiroEm` and `SemPrimeiroAusente` say which element goes) |
| AlocacaoDinamica.No.constructor | Conceitos-Fundamentais/Alocacao-Dinamica/exemplo_dinamica.py:19-21 | a new node holds the given value and has no successor |
| AlocacaoDinamica.ListaEncadeada.constructor | Conceitos-Fundamentais/Alocacao-Dinamica/exemplo_dinamica.py:32-34 | a new list is empty and well formed |
| AlocacaoDinamica.ListaEncadeada.EstaVazia | Conceitos-Fundamentais/Alocacao-Dinamica/exemplo_dinamica.py:36-37 | `cabeca` is null exactly when the list holds nothing |
| AlocacaoDinamica.ListaEncadeada.InserirInicio | Conceitos-Fundamentais/Alocacao-Dinamica/exemplo_dinamica.py:39-44 | prepends and raises `tamanho` by one |
| AlocacaoDinamica.ListaEncadeada.InserirFim | Conceitos-Fundamentais/Alocacao-Dinamica/exemplo_dinamica.py:46-58 | walks to the last node, appends, raises `tamanho` by one |
| AlocacaoDinamica.ListaEncadeada.Remover | Conceitos-Fundamentais/Alocacao-Dinamica/exemplo_dinamica.py:60-82 | answers true exactly when the value occurs; the list loses only its first occurrence; `tamanho` drops by one exactly then; an absent value or an empty list leaves everything as it was |
| AlocacaoDinamica.ListaEncadeada.DesligarProximo | Conceitos-Fundamentais/Alocacao-Dinamica/exemplo_dinamica.py:77-80 | unlinking the node after node k removes exactly element k + 1 |
| AlocacaoDinamica.ListaEncadeada.Elementos | Conceitos-Fundamentais/Alocacao-Dinamica/exemplo_dinamica.py:84-97 | the walk from `cabeca` visits exactly the listed values |
| AlocacaoDinamica.ListaDemonstrada | Conceitos-Fundamentais/Alocacao-Dinamica/exemplo_dinamica.py:136-137 | appending 10..50 gives 10, 20, 30, 40, 50 |
| AlocacaoDinamica.RemocoesSucessivas | Conceitos-Fundamentais/Alocacao-Dinamica/exemplo_dinamica.py:142-143 | on five distinct values, removing the third, the first, then the last finds each and leaves the second and fourth |
| AlocacaoDinamica.RemocoesDemonstradas | Conceitos-Fundamentais/Alocacao-Dinamica/exemplo_dinamica.py:142-147 | on a list of five distinct values, removing the third, the first and the last answers true each time and leaves the second and fourth |
| AlocacaoDinamica.DemonstrarListaEncadeada | Conceitos-Fundamentais/Alocacao-Dinamica/exemplo_dinamica.py:133-147 | the removals of 30, 10 and 50 all succeed and leave 20, 40 |
| AlocacaoDinamica.RemocaoEncadeada | Conceitos-Fundamentais/Alocacao-Dinamica/exemplo_dinamica.py:78 | bypassing node k + 1 keeps every remaining node linked to the next |
| SolucaoPratica.Antes | solucao_pratica.py:46-48 | the scan test: a strictly smaller key, prioridade first, so a patient before another never has a larger prioridade |
| SolucaoPratica.AntesEstrita | solucao_pratica.py:46-48 | the scan test is irreflexive and asymmetric, so the scan stops at an equal key |
| SolucaoPratica.Inserida | solucao_pratica.py:44-52 | the list after `inserir(p)`: one longer than before and holding `p` (see `InseridaEm`, `InseridaPermutacao`, `InseridaOrdenada` for the position, permutation and order) |
| SolucaoPratica.InseridaEm | solucao_pratica.py:44-52 | the patient goes in front of the first one whose key is not strictly smaller; everyone else keeps their order |
| SolucaoPratica.EmpateVemAntes | solucao_pratica.py:45-52 | on an exact tie of (prioridade, hora_chegada) the new patient goes before the waiting one |
| SolucaoPratica.InseridaPermutacao | solucao_pratica.py:52 | insertion adds exactly that patient and loses nobody |
| SolucaoPratica.InseridaOrdenada | solucao_pratica.py:43-52 | a list sorted by key stays sorted after an insertion |
| SolucaoPratica.PrimeiroEMinimo | solucao_pratica.py:55-59 | the front of a sorted list has a key no waiting patient beats |
| SolucaoPratica.FilaPrioridade.constructor | solucao_pratica.py:31-32 | a new queue is empty |
| SolucaoPratica.FilaPrioridade.EstaVazia | solucao_pratica.py:34-36 | true exactly when nobody waits |
| SolucaoPratica.FilaPrioridade.Inserir | solucao_pratica.py:38-52 | the scan-and-insert computes `Inserida`; the queue stays sorted and gains exactly the patient |
| SolucaoPratica.FilaPrioridade.ProximoPaciente | solucao_pratica.py:55-59 | None exactly on an empty queue, else the front patient, whose key no one beats |
| SolucaoPratica.FilaPrioridade.Atender | solucao_pratica.py:61-69 | None and no change on an empty queue; else removes and returns the front patient |
| SolucaoPratica.OrdemDasChegadas | solucao_pratica.py:88-100 | five arrivals with the demonstration's keys end up ordered Maria, Ana, Pedro, João, Carlos |
| SolucaoPratica.ChegadasDemonstradas | solucao_pratica.py:85-100 | the queue after the five arrivals |
| SolucaoPratica.DemonstrarAtendimento | solucao_pratica.py:84-112 | the patients are served Maria, Ana, Pedro, João, Carlos |
| Contagem.DistintosPropriedades | Definicao-Importancia/exemplo_performance.py:26-29 | the first-occurrence list has no repetition and holds exactly the input's values |
| Contagem.DistintosPrefixo | Definicao-Importancia/exemplo_performance.py:26-29 | first-occurrence order: the distinct values of any prefix of the input start the distinct values of the whole input, so a value once appended keeps its place |
| Contagem.FrequenciasSomam | Definicao-Importancia/exemplo_performance.py:26-90 | the counts of the distinct values sum to the input length |
| Contagem.OrdenacaoPropriedades | Definicao-Importancia/exemplo_performance.py:41 | the sort is sorted and a permutation |
| Contagem.Indice | Definicao-Importancia/exemplo_performance.py:31 | `list.index`: the first position holding the value |
| Contagem.ContagemComLista | Definicao-Importancia/exemplo_performance.py:20-37 | each distinct value once, in first-occurrence order (`Distintos`, whose order `DistintosPrefixo` states); one count per value, equal to its number of occurrences; the counts sum to the input length |
| Contagem.ContarOrdenados | Definicao-Importancia/exemplo_performance.py:47-54 | on sorted input the run-length loop lists strictly increasing values with their counts |
| Contagem.ContagemComListaOrdenada | Definicao-Importancia/exemplo_performance.py:40-59 | strictly increasing distinct values, each with its number of occurrences; the counts sum to the input length |
| Contagem.ContagemComDicionario | Definicao-Importancia/exemplo_performance.py:62-76 | the map has exactly the distinct values as keys, each mapped to its count |
| Contagem.ContagemComDefaultdict | Definicao-Importancia/exemplo_performance.py:79-90 | the same map as the dictionary routine |
| Contagem.CompararContagens | Definicao-Importancia/exemplo_performance.py:62-90 | the dictionary and defaultdict routines agree on every input |
| Contagem.Soma | Definicao-Importancia/exemplo_performance.py:22-32 | the sum of a list of counts (definition, no contract) |
| Contagem.Distintos | Definicao-Importancia/exemplo_performance.py:21-28 | the distinct values in first-occurrence order, as `elementos_unicos` grows (definition; see `DistintosPropriedades`) |
| Contagem.Frequencias | Definicao-Importancia/exemplo_performance.py:62-76 | every value of the input mapped to its number of occurrences (definition, no contract) |
| Contagem.InsereOrdenado | Definicao-Importancia/exemplo_performance.py:41 | one insertion step of the sort standing for `sorted` (definition, no contract) |
| Contagem.Ordenacao | Definicao-Importancia/exemplo_performance.py:41 | the insertion sort standing for `sorted` (definition; see `OrdenacaoPropriedades`) |

## Left out

- `Conceitos-Fundamentais/Alocacao-Estatica/exemplo_estatica.py`: it only measures numpy arrays, memory sizes and wall-clock time.
- Output and drivers: `print`, `imprimir` (modelled as the walk `Elementos`), `mostrar_fila`, the `__str__` methods and the `__main__` blocks. This includes the messages that `FilaPrioridade.inserir` and `atender` print.
- The demonstration drivers are modelled only where they exercise the core, as concrete traces.
- `collections.deque`, `queue.PriorityQueue` and their demonstrations: library code that is not part of this model.
- `aplicacao_simulacao_atendimento` (random arrival times, floats) and `simulacao_chamadas_funcao` (printing over dict frames).
- `time.time()` around the counting routines, so their `tempo_total` results are not returned. Also `gerar_dados` (random input), `executar_teste`, and `comparar_desempenho` in exemplo_lista.py.
- Python's `sorted` is stood in for by an insertion sort, `Ordenacao`, proved sorted and a permutation. Any sorted permutation of the input is the same sequence, so the result is the same.
- Expressoes.Aplica: `/` gives a Python float and `^` with a negative exponent gives a float. Both return the error `ForaDoModelo` instead of a value. Division by zero therefore never raises ZeroDivisionError in the model.
- Expressoes.EhAlnum, Expressoes.EhDigito: `str.isalnum` and `str.isdigit` are modelled on ASCII letters and digits only. Python also accepts other Unicode letters and digits.
- Filas.FilaCircular.constructor: the capacity is a `nat`. Python's `[None] * capacidade` with a negative capacity builds an empty list, which is not modelled.
- Contagem.Indice: requires that the value occurs. Its only caller, `contagem_com_lista`, calls `index` only after `num not in elementos_unicos` failed, so it never raises ValueError there.
- Listas.InserirRemoverPosicao and Listas.BuscarObter: these relate two operations. Their `requires` only name the case being related (a valid insertion position).
- Aliasing between different containers is not modelled. Each container owns its nodes (`Repr`).
- Python integers are unbounded and so is `int` here, so no overflow is modelled.
