/** Free-text answer checking of the player game (`validar_respuesta_jugador`):
    the typed name is trimmed and lower-cased, then compared against every
    candidate name in the order the candidates were collected. */
module Matching {
  import opened Wrappers
  import opened Text

  /** `s.strip().lower()`: no capital letter and no whitespace at either end
      is left, and the result is empty exactly when `s` is all whitespace. */
  function Normalize(s: string): (r: string)
    ensures forall i :: 0 <= i < |r| ==> !IsUpper(r[i])
    ensures r == [] || (!IsSpace(r[0]) && !IsSpace(r[|r| - 1]))
    ensures r == [] <==> AllSpace(s)
  {
    var t := Strip(s);
    var r := Lower(t);
    NormalizeEnds(t, r);
    r
  }

  lemma NormalizeEnds(t: string, r: string)
    requires |r| == |t| && forall i :: 0 <= i < |t| ==> r[i] == LowerChar(t[i])
    requires t == [] || (!IsSpace(t[0]) && !IsSpace(t[|t| - 1]))
    ensures r == [] || (!IsSpace(r[0]) && !IsSpace(r[|r| - 1]))
  {
    if t != [] {
      LowerKeepsSpace(t[0]);
      LowerKeepsSpace(t[|t| - 1]);
    }
  }

  /** The test of one candidate: the normalised input occurs somewhere in the
      lower-cased name, or the lower-cased name occurs somewhere in the input. */
  function Matches(typed: string, key: string): (b: bool)
    ensures b <==> (exists i :: OccursAt(typed, Lower(key), i)) || (exists i :: OccursAt(Lower(key), typed, i))
  {
    SubstringAt(typed, Lower(key));
    SubstringAt(Lower(key), typed);
    IsSubstring(typed, Lower(key)) || IsSubstring(Lower(key), typed)
  }

  /** The scan of `keys` from position `from`: the first position that matches,
      if any. */
  function FirstMatchFrom(typed: string, keys: seq<string>, from: nat): (r: Option<nat>)
    requires from <= |keys|
    ensures r.Some? ==> from <= r.value < |keys| && Matches(typed, keys[r.value])
    ensures r.Some? ==> forall j :: from <= j < r.value ==> !Matches(typed, keys[j])
    ensures r.None? ==> forall j :: from <= j < |keys| ==> !Matches(typed, keys[j])
    decreases |keys| - from
  {
    if from == |keys| then None
    else if Matches(typed, keys[from]) then Some(from)
    else FirstMatchFrom(typed, keys, from + 1)
  }

  /** `validar_respuesta_jugador(input, candidates)` with the candidates given
      by their names in dictionary order. An empty input or no candidates gives
      `(false, None)`; otherwise the first matching name, or `(false, None)`
      when none matches. */
  function ValidateAnswer(input: string, keys: seq<string>): (r: (bool, Option<string>))
    ensures r.0 <==> r.1.Some?
    ensures r.0 <==> input != "" && exists j :: 0 <= j < |keys| && Matches(Normalize(input), keys[j])
    ensures r.1.Some? ==> exists j :: 0 <= j < |keys| && keys[j] == r.1.value
                            && Matches(Normalize(input), keys[j])
                            && forall i :: 0 <= i < j ==> !Matches(Normalize(input), keys[i])
  {
    if input == "" || keys == [] then (false, None)
    else
      match FirstMatchFrom(Normalize(input), keys, 0)
      case Some(j) => (true, Some(keys[j]))
      case None => (false, None)
  }

  /** An input made only of blanks passes the emptiness test but normalises to
      "", which is inside every name: the first candidate is accepted. */
  lemma BlankInputMatchesFirst(input: string, keys: seq<string>)
    requires input != "" && AllSpace(input) && keys != []
    ensures ValidateAnswer(input, keys) == (true, Some(keys[0]))
  {
    assert Normalize(input) == "";
    EmptyIsSubstring(Lower(keys[0]));
  }

  /** When the first candidate matches, it is the answer. */
  lemma FirstKeyWins(input: string, keys: seq<string>)
    requires input != "" && keys != [] && Matches(Normalize(input), keys[0])
    ensures ValidateAnswer(input, keys) == (true, Some(keys[0]))
  {
  }

  /** Text with no blank at either end is left alone by `strip`. */
  lemma StripTrimmed(s: string)
    requires s != [] && !IsSpace(s[0]) && !IsSpace(s[|s| - 1])
    ensures Strip(s) == s
  {
  }

  lemma NormalizeRon()
    ensures Normalize("ron") == "ron"
  {
    LowerNoUpper("ron");
    StripTrimmed("ron");
  }

  /** Dictionary order decides between several matching names: whichever comes
      first wins, so the same candidates in another order give another answer. */
  lemma TieBreakByOrder()
    ensures ValidateAnswer("ron", ["Ronaldo", "Ronaldinho"]) == (true, Some("Ronaldo"))
    ensures ValidateAnswer("ron", ["Ronaldinho", "Ronaldo"]) == (true, Some("Ronaldinho"))
  {
    NormalizeRon();
    assert IsPrefix("ron", Lower("Ronaldo"));
    assert IsPrefix("ron", Lower("Ronaldinho"));
    FirstKeyWins("ron", ["Ronaldo", "Ronaldinho"]);
    FirstKeyWins("ron", ["Ronaldinho", "Ronaldo"]);
  }

  lemma TrimPaddedStart(t: string)
    requires t != [] && !IsSpace(t[0])
    ensures TrimStart([' '] + t + [' ']) == t + [' ']
  {
    assert ([' '] + t + [' '])[1..] == t + [' '];
  }

  lemma TrimPaddedEnd(t: string)
    requires t != [] && !IsSpace(t[|t| - 1])
    ensures TrimEnd(t + [' ']) == t
  {
    assert (t + [' '])[..|t|] == t;
  }

  /** One blank on each side of a trimmed text is cut away by `strip`. */
  lemma StripPadded(t: string)
    requires t != [] && !IsSpace(t[0]) && !IsSpace(t[|t| - 1])
    ensures Strip([' '] + t + [' ']) == t
  {
    TrimPaddedStart(t);
    TrimPaddedEnd(t);
  }

  lemma StripGaucho()
    ensures Strip(" gaúcho ") == "gaúcho"
  {
    assert " gaúcho " == [' '] + "gaúcho" + [' '];
    StripPadded("gaúcho");
  }

  lemma GauchoHasNoCapitals()
    ensures forall i :: 0 <= i < |"gaúcho"| ==> !IsUpper("gaúcho"[i])
  {
  }

  lemma NormalizeGaucho()
    ensures Normalize(" gaúcho ") == "gaúcho"
  {
    StripGaucho();
    GauchoHasNoCapitals();
    LowerNoUpper("gaúcho");
  }

  lemma LowerRonaldinhoGaucho()
    ensures Lower("Ronaldinho Gaúcho") == "ronaldinho " + "gaúcho" + ""
  {
  }

  lemma NormalizeRonaldinho()
    ensures Normalize("ronaldinho") == "ronaldinho"
  {
    LowerNoUpper("ronaldinho");
    StripTrimmed("ronaldinho");
  }

  lemma LowerRonaldinho()
    ensures Lower("Ronaldinho") == "ronaldinho"
  {
  }

  /** Matching ignores case: "ronaldinho" finds "Ronaldinho". */
  lemma CaseInsensitive()
    ensures ValidateAnswer("ronaldinho", ["Ronaldinho"]) == (true, Some("Ronaldinho"))
  {
    NormalizeRonaldinho();
    LowerRonaldinho();
    assert IsPrefix("ronaldinho", "ronaldinho");
    FirstKeyWins("ronaldinho", ["Ronaldinho"]);
  }

  /** Matching ignores surrounding blanks and accepts the inner part of a name:
      " gaúcho " finds "Ronaldinho Gaúcho". */
  lemma PartialAndTrimmed()
    ensures ValidateAnswer(" gaúcho ", ["Ronaldinho Gaúcho"]) == (true, Some("Ronaldinho Gaúcho"))
  {
    NormalizeGaucho();
    LowerRonaldinhoGaucho();
    InConcat("gaúcho", "ronaldinho ", "");
    FirstKeyWins(" gaúcho ", ["Ronaldinho Gaúcho"]);
  }
}
