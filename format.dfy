/** The two display formatters of the player game: a club tenure period and a
    line of appearance statistics, each with a fixed sentinel for "no data". */
module Format {
  import opened Wrappers
  import opened Text

  const PeriodUnavailable: string := "Período no disponible"
  const StatsUnavailable: string := "Estadísticas no disponibles"

  /** `None`, and `""` (which Python treats as false), both read as missing. */
  function Norm(o: Option<string>): Option<string> {
    if Truthy(o) then o else None
  }

  /** `formatear_periodo`: "start-end", "start-?", "?-end", or the sentinel,
      which is shown exactly when neither year is present. */
  function FormatPeriod(start: Option<string>, end: Option<string>): (r: string)
    ensures r == PeriodUnavailable <==> !Truthy(start) && !Truthy(end)
  {
    assert '-' !in PeriodUnavailable;
    if Truthy(start) && Truthy(end) then
      var r := start.value + "-" + end.value;
      assert r[|start.value|] == '-';
      r
    else if Truthy(start) then
      var r := start.value + "-?";
      assert r[|start.value|] == '-';
      r
    else if Truthy(end) then
      var r := "?-" + end.value;
      assert r[1] == '-';
      r
    else PeriodUnavailable
  }

  /** `formatear_estadisticas`: "{m} partidos" and then "{g} goles", each only
      when present, joined by " | "; the sentinel, shown exactly when neither
      is present, otherwise. */
  function FormatStats(matches: Option<string>, goals: Option<string>): (r: string)
    ensures r == StatsUnavailable <==> !Truthy(matches) && !Truthy(goals)
  {
    var parts := (if Truthy(matches) then [matches.value + " partidos"] else [])
               + (if Truthy(goals) then [goals.value + " goles"] else []);
    var n := |StatsUnavailable|;
    assert StatsUnavailable[n - 5] == 'i';
    assert StatsUnavailable[n - 9] == 's';
    if parts == [] then StatsUnavailable
    else if Truthy(matches) && Truthy(goals) then
      var a, b := matches.value + " partidos", goals.value + " goles";
      assert parts == [a, b];
      JoinTwo(a, b, " | ");
      var r := Join(parts, " | ");
      assert r == a + " | " + b;
      assert r[|r| - 5] == b[|b| - 5] == 'g';
      r
    else if Truthy(goals) then
      var r := Join(parts, " | ");
      assert r[|r| - 5] == 'g';
      r
    else
      var r := Join(parts, " | ");
      assert r[|r| - 9] == ' ';
      r
  }

  /** Reads a displayed period back: the two halves around the first '-',
      with "?" standing for a missing year. */
  function ParsePeriod(r: string): (Option<string>, Option<string>)
  {
    if r == PeriodUnavailable then (None, None)
    else
      var b := Before(r, '-');
      var a := if |b| < |r| then r[|b| + 1..] else "";
      (if b == "?" then None else Some(b), if a == "?" then None else Some(a))
  }

  /** A year that can be shown without ambiguity: not "?", and for the start
      no '-' inside. */
  predicate PlainStart(o: Option<string>) {
    o.Some? ==> o.value != "?" && '-' !in o.value
  }
  predicate PlainEnd(o: Option<string>) {
    o.Some? ==> o.value != "?"
  }

  /** The displayed period determines both years: reading it back gives the
      missing-or-present value of each. */
  lemma PeriodRoundTrip(start: Option<string>, end: Option<string>)
    requires PlainStart(start) && PlainEnd(end)
    ensures ParsePeriod(FormatPeriod(start, end)) == (Norm(start), Norm(end))
  {
    var r := FormatPeriod(start, end);
    if Truthy(start) && Truthy(end) {
      BeforeSeparator(start.value, '-', end.value);
      assert r == start.value + ['-'] + end.value;
      assert r[|start.value| + 1..] == end.value;
    } else if Truthy(start) {
      BeforeSeparator(start.value, '-', "?");
      assert r == start.value + ['-'] + "?";
      assert r[|start.value| + 1..] == "?";
    } else if Truthy(end) {
      BeforeSeparator("?", '-', end.value);
      assert r == "?" + ['-'] + end.value;
      assert r[2..] == end.value;
    }
  }

  lemma StatsBoth(matches: Option<string>, goals: Option<string>)
    requires Truthy(matches) && Truthy(goals)
    ensures FormatStats(matches, goals) == matches.value + " partidos" + " | " + (goals.value + " goles")
  {
    var a, b := matches.value + " partidos", goals.value + " goles";
    var parts := [a] + [b];
    assert parts == [a, b] && parts[1..] == [b];
    assert Join(parts, " | ") == a + " | " + Join([b], " | ");
  }

  /** Reads a displayed statistics line back, word by word. */
  function ParseStats(r: string): (Option<string>, Option<string>)
  {
    if r == StatsUnavailable then (None, None)
    else
      var w := Split(r, ' ');
      if |w| == 5 && w[1] == "partidos" && w[2] == "|" && w[4] == "goles" then (Some(w[0]), Some(w[3]))
      else if |w| == 2 && w[1] == "partidos" then (Some(w[0]), None)
      else if |w| == 2 && w[1] == "goles" then (None, Some(w[0]))
      else (None, None)
  }

  /** The displayed line determines both figures, when neither holds a space
      (the endpoint returns them as plain numbers). */
  lemma StatsRoundTrip(matches: Option<string>, goals: Option<string>)
    requires matches.Some? ==> ' ' !in matches.value
    requires goals.Some? ==> ' ' !in goals.value
    ensures ParseStats(FormatStats(matches, goals)) == (Norm(matches), Norm(goals))
  {
    var r := FormatStats(matches, goals);
    if Truthy(matches) && Truthy(goals) {
      var w := [matches.value, "partidos", "|", goals.value, "goles"];
      StatsBoth(matches, goals);
      assert Join(w[3..], " ") == goals.value + " goles" by {
        assert w[3..][1..] == w[4..];
      }
      assert Join(w[2..], " ") == "| " + goals.value + " goles" by {
        assert w[2..][1..] == w[3..];
      }
      assert Join(w[1..], " ") == "partidos | " + goals.value + " goles" by {
        assert w[1..][1..] == w[2..];
      }
      assert r == Join(w, " ");
      SplitJoin(w, ' ');
    } else if Truthy(matches) {
      var w := [matches.value, "partidos"];
      assert r == Join(w, " ");
      SplitJoin(w, ' ');
    } else if Truthy(goals) {
      var w := [goals.value, "goles"];
      assert r == Join(w, " ");
      SplitJoin(w, ' ');
    }
  }
}
