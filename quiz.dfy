/** The World Cup quiz: building a question from the two query results
    (`generar_nueva_pregunta`) and the answer and retry handlers. */
module Quiz {
  import opened Wrappers
  import opened Bindings
  import opened Queries

  const WinnerLabel: string := "winnerLabel"

  predicate AllBind(rows: seq<Row>, v: string) {
    forall i :: 0 <= i < |rows| ==> v in rows[i]
  }

  /** The winner labels of the rows, in order. */
  function Labels(rows: seq<Row>): (r: seq<string>)
    requires AllBind(rows, WinnerLabel)
    ensures |r| == |rows| && forall i :: 0 <= i < |rows| ==> r[i] == rows[i][WinnerLabel]
  {
    seq(|rows|, i requires 0 <= i < |rows| => rows[i][WinnerLabel])
  }

  /** `[label for label in labels if label != correct]`: every label but the
      correct answer, each as often as it occurs. */
  function Distractors(labels: seq<string>, correct: string): (r: seq<string>)
    ensures correct !in r && |r| <= |labels|
  {
    if labels == [] then []
    else (if labels[0] != correct then [labels[0]] else []) + Distractors(labels[1..], correct)
  }

  /** The filter keeps every other label as often as it occurs. */
  lemma {:induction false} DistractorsKeepOthers(labels: seq<string>, correct: string)
    ensures forall x :: x != correct ==> multiset(Distractors(labels, correct))[x] == multiset(labels)[x]
  {
    if labels != [] {
      DistractorsKeepOthers(labels[1..], correct);
      assert labels == [labels[0]] + labels[1..];
    }
  }

  function Min(a: int, b: int): int {
    if a < b then a else b
  }

  /** `random.sample(population, n)`: `n` elements taken from distinct positions. */
  predicate IsSample(s: seq<string>, population: seq<string>, n: nat) {
    |s| == n && multiset(s) <= multiset(population)
  }

  /** Every result the sampling and the shuffle can produce: up to three
      distractors plus the correct answer, in any order. */
  ghost predicate Admissible(incorrect: seq<string>, correct: string, options: seq<string>) {
    exists s :: IsSample(s, incorrect, Min(3, |incorrect|)) && multiset(options) == multiset(s + [correct])
  }

  lemma PrefixIsSample(population: seq<string>, n: nat)
    requires n <= |population|
    ensures IsSample(population[..n], population, n)
  {
    assert population == population[..n] + population[n..];
  }

  /** Lines 124-130: the sample of `min(3, n)` distractors, the correct answer
      appended, and the shuffle. */
  method ComposeOptions(incorrect: seq<string>, correct: string) returns (options: seq<string>)
    requires correct !in incorrect && incorrect != []
    ensures Admissible(incorrect, correct, options)
    ensures |options| == Min(3, |incorrect|) + 1
    ensures multiset(options)[correct] == 1
    ensures forall x :: x in options ==> x == correct || x in incorrect
  {
    var n := Min(3, |incorrect|);
    PrefixIsSample(incorrect, n);
    var sample: seq<string> :| |sample| == n && multiset(sample) <= multiset(incorrect);
    var all := sample + [correct];
    options :| multiset(options) == multiset(all);
    assert multiset(incorrect)[correct] == 0;
    forall x | x in options ensures x == correct || x in incorrect {
      assert x in multiset(options);
      assert x in multiset(all);
      assert multiset(all) == multiset(sample) + multiset{correct};
      if x != correct {
        assert multiset(sample)[x] > 0;
        assert multiset(sample)[x] <= multiset(incorrect)[x];
      }
    }
  }

  /** Every admissible option list has two to four entries and the correct
      answer exactly once; the other entries are distractors. */
  lemma AdmissibleShape(incorrect: seq<string>, correct: string, options: seq<string>)
    requires correct !in incorrect && incorrect != []
    requires Admissible(incorrect, correct, options)
    ensures 2 <= |options| <= 4
    ensures multiset(options)[correct] == 1
    ensures forall x :: x != correct ==> multiset(options)[x] <= multiset(incorrect)[x]
  {
    var s :| IsSample(s, incorrect, Min(3, |incorrect|)) && multiset(options) == multiset(s + [correct]);
    assert |multiset(options)| == |options|;
    assert multiset(s)[correct] <= multiset(incorrect)[correct] == 0;
  }

  /** With distinct distractors the options are distinct too. */
  lemma AdmissibleDistinct(incorrect: seq<string>, correct: string, options: seq<string>)
    requires correct !in incorrect && incorrect != []
    requires forall x :: multiset(incorrect)[x] <= 1
    requires Admissible(incorrect, correct, options)
    ensures forall x :: multiset(options)[x] <= 1
  {
    AdmissibleShape(incorrect, correct, options);
  }

  /** The endpoint's DISTINCT is the only guard against repeated options: when
      the labels repeat, an option list may repeat one. */
  lemma RepeatedLabelsRepeatOptions()
    ensures Admissible(["France", "Italy", "France"], "Argentina", ["France", "Argentina", "Italy", "France"])
  {
    var s := ["France", "Italy", "France"];
    assert IsSample(s, s, Min(3, |s|));
    assert multiset(["France", "Argentina", "Italy", "France"]) == multiset(s + ["Argentina"]);
  }

  /** The rows each result must bind for `generar_nueva_pregunta` to read them
      without a `KeyError`: the first champion row, and every distractor row
      once the distractor query is sent, which happens only after a champion
      row was found. */
  predicate Answerable(champion: Option<seq<Row>>, others: Option<seq<Row>>) {
    && (champion.Some? && champion.value != [] ==> WinnerLabel in champion.value[0])
    && (champion.Some? && champion.value != [] && others.Some? ==> AllBind(others.value, WinnerLabel))
  }

  /** Lines 109-125: the correct answer and the distractor pool, when the
      champion query gave a row, the distractor query gave rows, and some
      distractor differs from the answer; `None` otherwise. */
  function Pool(champion: Option<seq<Row>>, others: Option<seq<Row>>): (r: Option<(string, seq<string>)>)
    requires Answerable(champion, others)
    ensures r.Some? <==> champion.Some? && champion.value != [] && others.Some? && others.value != []
                         && Distractors(Labels(others.value), champion.value[0][WinnerLabel]) != []
    ensures r.Some? ==> r.value.0 == champion.value[0][WinnerLabel]
    ensures r.Some? ==> r.value.1 == Distractors(Labels(others.value), r.value.0)
    ensures r.Some? ==> r.value.0 !in r.value.1 && r.value.1 != []
  {
    if champion.Some? && champion.value != [] then
      var answer := champion.value[0][WinnerLabel];
      if others.Some? && others.value != [] then
        var incorrect := Distractors(Labels(others.value), answer);
        if incorrect != [] then Some((answer, incorrect)) else None
      else None
    else None
  }

  /** The question state kept across page runs (`st.session_state.quiz_*`). */
  class QuizGame {
    var options: seq<string>
    var correct: string
    var year: string
    var generated: bool
    var answered: bool
    var userAnswer: Option<string>
    var correctFinal: bool

    /** Before the first question nothing is shown; a generated question has two
        to four options with the correct answer once; the final "correct" flag
        is set exactly when the recorded answer is the correct one. */
    ghost predicate Valid()
      reads this
    {
      && (generated ==> 2 <= |options| <= 4 && multiset(options)[correct] == 1)
      && (!generated ==> options == [] && !answered)
      && (!answered ==> userAnswer == None)
      && (correctFinal <==> answered && userAnswer == Some(correct))
    }

    /** The initial session state (lines 91-98). */
    constructor ()
      ensures Valid()
      ensures options == [] && correct == "" && year == ""
      ensures !generated && !answered && userAnswer == None && !correctFinal
    {
      options := [];
      correct := "";
      year := "";
      generated := false;
      answered := false;
      userAnswer := None;
      correctFinal := false;
    }

    /** `generar_nueva_pregunta` for the tournament at position `k` of
        `Tournaments`: on success a fresh question for that tournament's year
        replaces the old one entirely; on failure it reports `false` and
        nothing changes. */
    method Generate(k: nat, endpoint: Endpoint) returns (ok: bool)
      requires Valid()
      requires k < |Tournaments|
      requires Answerable(endpoint(ChampionQuery(Tournaments[k].1)), endpoint(DistractorQuery(Tournaments[k].1)))
      modifies this
      ensures Valid()
      ensures var pool := Pool(endpoint(ChampionQuery(Tournaments[k].1)), endpoint(DistractorQuery(Tournaments[k].1)));
        && (ok <==> pool.Some?)
        && (ok ==> correct == pool.value.0 && Admissible(pool.value.1, correct, options))
      ensures ok ==> (year == Tournaments[k].0 && generated && !answered && userAnswer == None && !correctFinal)
      ensures !ok ==>
        && options == old(options) && correct == old(correct) && year == old(year)
        && generated == old(generated) && answered == old(answered)
        && userAnswer == old(userAnswer) && correctFinal == old(correctFinal)
    {
      var quizYear, qid := Tournaments[k].0, Tournaments[k].1;
      var pool := Pool(endpoint(ChampionQuery(qid)), endpoint(DistractorQuery(qid)));
      ok := false;
      if pool.Some? {
        var (answer, incorrect) := pool.value;
        var all := ComposeOptions(incorrect, answer);
        Install(all, answer, quizYear);
        ok := true;
      }
    }

    /** Lines 152-155: a first question is attempted, for the tournament at
        position `k`, when none has been generated yet; a generated question is
        left as it is. */
    method EnsureQuestion(k: nat, endpoint: Endpoint)
      requires Valid()
      requires k < |Tournaments|
      requires Answerable(endpoint(ChampionQuery(Tournaments[k].1)), endpoint(DistractorQuery(Tournaments[k].1)))
      modifies this
      ensures Valid()
      ensures var pool := Pool(endpoint(ChampionQuery(Tournaments[k].1)), endpoint(DistractorQuery(Tournaments[k].1)));
        !old(generated) && pool.Some? ==>
          && correct == pool.value.0 && Admissible(pool.value.1, correct, options)
          && year == Tournaments[k].0 && generated && !answered && userAnswer == None && !correctFinal
      ensures var pool := Pool(endpoint(ChampionQuery(Tournaments[k].1)), endpoint(DistractorQuery(Tournaments[k].1)));
        old(generated) || pool.None? ==>
          && options == old(options) && correct == old(correct) && year == old(year)
          && generated == old(generated) && answered == old(answered)
          && userAnswer == old(userAnswer) && correctFinal == old(correctFinal)
    {
      if !generated {
        var ok := Generate(k, endpoint);
      }
    }

    /** Shows a fresh, unanswered question (lines 133-139). */
    method Install(all: seq<string>, answer: string, quizYear: string)
      requires 2 <= |all| <= 4 && multiset(all)[answer] == 1
      modifies this
      ensures Valid()
      ensures options == all && correct == answer && year == quizYear
      ensures generated && !answered && userAnswer == None && !correctFinal
    {
      options, correct, year := all, answer, quizYear;
      generated, answered, userAnswer, correctFinal := true, false, None, false;
    }

    /** The "Responder" button (lines 170-176), offered while the question is
        shown and not yet answered correctly; `response` is the option chosen. */
    method Answer(response: string)
      requires Valid()
      requires response in options
      modifies this
      ensures Valid()
      ensures options == old(options) && correct == old(correct) && year == old(year)
      ensures generated == old(generated)
      ensures !old(correctFinal) ==>
        answered && userAnswer == Some(response) && correctFinal == (response == correct)
      ensures old(correctFinal) ==>
        answered == old(answered) && userAnswer == old(userAnswer) && correctFinal
    {
      if generated && options != [] && !correctFinal {
        userAnswer := Some(response);
        answered := true;
        if response == correct {
          correctFinal := true;
        }
      }
    }

    /** The "Reintentar" button (lines 190-193), offered after a wrong answer:
        the answer is cleared and the question itself is kept. */
    method Retry()
      requires Valid()
      modifies this
      ensures Valid()
      ensures options == old(options) && correct == old(correct) && year == old(year)
      ensures generated == old(generated) && correctFinal == old(correctFinal)
      ensures old(generated && options != [] && answered && Truthy(userAnswer) && !correctFinal) ==>
        !answered && userAnswer == None
      ensures !old(generated && options != [] && answered && Truthy(userAnswer) && !correctFinal) ==>
        answered == old(answered) && userAnswer == old(userAnswer)
    {
      if generated && options != [] && answered && Truthy(userAnswer) && !correctFinal {
        answered := false;
        userAnswer := None;
      }
    }
  }
}
