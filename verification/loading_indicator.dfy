/**
  The loading indicator: a fixed list of status messages and an index into
  it that advances by one, wrapping around, on every timer tick. The timer
  is abstracted to discrete ticks; the index is reset to 0 whenever the
  indicator is mounted.
*/
module LoadingIndicator {

  /** The canned messages, in display order. */
  const LoadingTexts: seq<string> := [
    "Inicializando conexão segura...",
    "Buscando metadados do repositório...",
    "Construindo árvore de dependências hipotética...",
    "Verificando vulnerabilidades conhecidas...",
    "Cruzando referências com assinaturas do ataque de Set 2025...",
    "Analisando padrões de código em busca de anomalias...",
    "Finalizando relatório de segurança..."
  ]

  /** The index on mount. */
  const StartIndex: nat := 0

  /** An index that selects a message. */
  predicate ValidIndex(i: int) {
    0 <= i < |LoadingTexts|
  }

  /** One tick: `(prevIndex + 1) % loadingTexts.length`. */
  function Tick(i: nat): (j: nat)
    ensures ValidIndex(j)
    ensures i + 1 < |LoadingTexts| ==> j == i + 1
    ensures i + 1 == |LoadingTexts| ==> j == 0
  {
    (i + 1) % |LoadingTexts|
  }

  /** The index after `n` ticks from `i`. */
  function Ticks(i: nat, n: nat): (j: nat)
    ensures n > 0 ==> ValidIndex(j)
    decreases n
  {
    if n == 0 then i else Tick(Ticks(i, n - 1))
  }

  /** The message on screen for index `i`. */
  function DisplayedText(i: nat): (text: string)
    requires ValidIndex(i)
    ensures text in LoadingTexts
  {
    LoadingTexts[i]
  }

  /** Ticking from a valid index is addition modulo the list length. */
  lemma {:induction false} TicksIsModularAddition(i: nat, n: nat)
    requires ValidIndex(i)
    ensures Ticks(i, n) == (i + n) % |LoadingTexts|
    decreases n
  {
    if n > 0 {
      TicksIsModularAddition(i, n - 1);
      ModSuccessor(i + n - 1);
    }
  }

  /** Taking the remainder before or after the increment agrees. */
  lemma ModSuccessor(x: nat)
    ensures ((x % |LoadingTexts|) + 1) % |LoadingTexts| == (x + 1) % |LoadingTexts|
  {
    var m := |LoadingTexts|;
    assert m == 7;
    var q := x / m;
    assert x == q * m + x % m;
    assert x + 1 == q * m + (x % m + 1);
  }

  /** The index never leaves the list, so every message lookup is defined. */
  lemma IndexAlwaysValid(n: nat)
    ensures ValidIndex(Ticks(StartIndex, n))
    ensures DisplayedText(Ticks(StartIndex, n)) == LoadingTexts[n % |LoadingTexts|]
  {
    TicksIsModularAddition(StartIndex, n);
    assert Ticks(StartIndex, n) == n % |LoadingTexts|;
  }

  /** Seven ticks bring the index back, and no fewer positive number does. */
  lemma PeriodIsListLength(i: nat, n: nat)
    requires ValidIndex(i)
    requires 0 < n
    ensures Ticks(i, n) == i <==> n % |LoadingTexts| == 0
    ensures n < |LoadingTexts| ==> Ticks(i, n) != i
    ensures n == |LoadingTexts| ==> Ticks(i, n) == i
  {
    TicksIsModularAddition(i, n);
  }

  /** There are seven messages, all different and none empty. */
  lemma LoadingTextsDistinct(i: nat, j: nat)
    requires ValidIndex(i) && ValidIndex(j)
    ensures |LoadingTexts| == 7
    ensures LoadingTexts[i] != ""
    ensures LoadingTexts[i] == LoadingTexts[j] <==> i == j
  {
  }

  /** The messages are pairwise different, so each tick changes the text. */
  lemma TickChangesText(i: nat)
    requires ValidIndex(i)
    ensures DisplayedText(Tick(i)) != DisplayedText(i)
  {
    LoadingTextsDistinct(i, Tick(i));
  }
}
