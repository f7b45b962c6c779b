/** Query construction: the static tournament and club tables, the list of
    tournaments other than the one asked about, and the three parameterised
    query texts. Every identifier in a query comes from the static tables. */
module Queries {
  import opened Text

  /** World Cup year and its graph identifier. */
  const Tournaments: seq<(string, string)> := [
    ("1982", "Q46934"),
    ("1986", "Q46938"),
    ("1990", "Q132529"),
    ("1994", "Q101751"),
    ("1998", "Q101730"),
    ("2002", "Q47735"),
    ("2006", "Q37285"),
    ("2010", "Q176883"),
    ("2014", "Q79859"),
    ("2018", "Q170645")
  ]

  datatype TeamInfo = TeamInfo(uri: string, logo: string)

  /** Club display name, graph identifier and logo. The last entry's identifier
      lacks the "wd:" prefix the others carry, as in the program's club table. */
  const Teams: seq<(string, TeamInfo)> := [
    ("FC Barcelona", TeamInfo("wd:Q7156",
      "https://logos-world.net/wp-content/uploads/2020/06/Barcelona-Logo.png")),
    ("AC Milan", TeamInfo("wd:Q1543",
      "https://logos-world.net/wp-content/uploads/2020/11/Milan-Logo.png")),
    ("Real Madrid", TeamInfo("wd:Q8682",
      "https://logos-world.net/wp-content/uploads/2020/06/Real-Madrid-Logo.png")),
    ("Inter Milan", TeamInfo("wd:Q631",
      "https://logos-world.net/wp-content/uploads/2021/04/FC-Internazionale-Milano-Logo.png")),
    ("Manchester United", TeamInfo("wd:Q18656",
      "https://logos-world.net/wp-content/uploads/2020/06/Manchester-United-logo.png")),
    ("Juventus FC", TeamInfo("wd:Q1422",
      "https://logos-world.net/wp-content/uploads/2020/06/Juventus-Logo.png")),
    ("Bayern Munich", TeamInfo("wd:Q15789",
      "https://logos-world.net/wp-content/uploads/2020/06/FC-Bayern-Munchen-Logo.png")),
    ("Arsenal FC", TeamInfo("wd:Q9617",
      "https://logos-world.net/wp-content/uploads/2020/05/Arsenal-Logo.png")),
    ("Chelsea FC", TeamInfo("wd:Q9616",
      "https://logos-world.net/wp-content/uploads/2020/05/Chelsea-Logo.png")),
    ("Atletico de Madrid", TeamInfo("wd:Q8701",
      "https://logos-world.net/wp-content/uploads/2020/06/atletico-madrid-Logo.png")),
    ("Borussia Dortmund", TeamInfo("Q41420",
      "https://logos-world.net/wp-content/uploads/2020/11/Borussia-Dortmund-Logo.png"))
  ]

  /** `[qid for year, qid in mundiales.items() if qid != excluded]`: the
      identifiers other than `excluded`, in table order. */
  function OtherIds(table: seq<(string, string)>, excluded: string): (r: seq<string>)
    ensures forall x :: x in r <==> x != excluded && exists k :: 0 <= k < |table| && table[k].1 == x
    ensures |r| <= |table|
  {
    if table == [] then []
    else
      var rest := OtherIds(table[1..], excluded);
      assert forall k :: 1 <= k < |table| ==> table[k].1 == table[1..][k - 1].1;
      (if table[0].1 != excluded then [table[0].1] else []) + rest
  }

  predicate DistinctIds(table: seq<(string, string)>) {
    forall i, j :: 0 <= i < j < |table| ==> table[i].1 != table[j].1
  }

  /** With distinct identifiers, excluding one of them leaves all the others:
      one fewer than the table holds. */
  lemma {:induction false} OtherIdsCount(table: seq<(string, string)>, k: nat)
    requires DistinctIds(table) && k < |table|
    ensures |OtherIds(table, table[k].1)| == |table| - 1
  {
    if k == 0 {
      OtherIdsNone(table[1..], table[0].1);
    } else {
      OtherIdsCount(table[1..], k - 1);
    }
  }

  /** Excluding an identifier the table does not hold keeps the whole table. */
  lemma {:induction false} OtherIdsNone(table: seq<(string, string)>, excluded: string)
    requires forall k :: 0 <= k < |table| ==> table[k].1 != excluded
    ensures |OtherIds(table, excluded)| == |table|
  {
    if table != [] {
      OtherIdsNone(table[1..], excluded);
    }
  }

  lemma TournamentIdsDistinct()
    ensures DistinctIds(Tournaments)
  {
  }

  lemma TournamentIdsPlain()
    ensures forall k :: 0 <= k < |Tournaments| ==> ' ' !in Tournaments[k].1
  {
  }

  /** `"wd:" + qid` for each identifier. */
  function Prefixed(ids: seq<string>): (r: seq<string>)
    ensures |r| == |ids|
  {
    seq(|ids|, i requires 0 <= i < |ids| => "wd:" + ids[i])
  }

  /** `" ".join([f"wd:{qid}" for qid in ids])`. */
  function ValuesClause(ids: seq<string>): string {
    Join(Prefixed(ids), " ")
  }

  /** The clause names exactly the given identifiers, in order: splitting it at
      the blanks gives back each prefixed identifier. */
  lemma ValuesClauseLists(ids: seq<string>)
    requires ids != []
    requires forall k :: 0 <= k < |ids| ==> ' ' !in ids[k]
    ensures Split(ValuesClause(ids), ' ') == Prefixed(ids)
  {
    var p := Prefixed(ids);
    forall k | 0 <= k < |p| ensures ' ' !in p[k] {
      assert p[k] == "wd:" + ids[k];
    }
    SplitJoin(p, ' ');
  }

  /** The text of `q` without its first `a` and last `b` characters. */
  function Inner(q: string, a: nat, b: nat): string {
    if a + b <= |q| then q[a..|q| - b] else ""
  }

  lemma InnerOf(h: string, c: string, t: string)
    ensures Inner(h + c + t, |h|, |t|) == c
  {
    assert (h + c + t)[|h|..|h + c + t| - |t|] == c;
  }

  const ChampionPart0: string :=
    "\n" +
    "    SELECT ?winner ?winnerLabel WHERE {\n" +
    "        wd:"
  const ChampionPart1: string :=
    " wdt:P1346 ?winner .\n" +
    "        SERVICE wikibase:label { bd:serviceParam wikibase:language \"es,en\". }\n" +
    "    }\n" +
    "    "
  /** `obtener_campeon`'s query: the winner of one tournament and its label.
      The tournament identifier sits between the template's fixed head and tail. */
  function ChampionQuery(qid: string): (q: string)
    ensures Inner(q, |ChampionPart0|, |ChampionPart1|) == qid
  {
    InnerOf(ChampionPart0, qid, ChampionPart1);
    ChampionPart0 + qid + ChampionPart1
  }

  const DistractorPart0: string :=
    "\n" +
    "    SELECT DISTINCT ?winnerLabel WHERE {\n" +
    "        VALUES ?mundial { "
  const DistractorPart1: string :=
    " }\n" +
    "        ?mundial wdt:P1346 ?winner .\n" +
    "        SERVICE wikibase:label { bd:serviceParam wikibase:language \"es,en\". }\n" +
    "    }\n" +
    "    "
  /** `obtener_respuestas_incorrectas`'s query: the distinct winner labels of
      every tournament but `excluded`, in one batch; the VALUES list between
      its fixed head and tail names those tournaments. */
  function DistractorQuery(excluded: string): (q: string)
    ensures ValuesOf(q) == ValuesClause(OtherIds(Tournaments, excluded))
  {
    var v := ValuesClause(OtherIds(Tournaments, excluded));
    InnerOf(DistractorPart0, v, DistractorPart1);
    DistractorPart0 + v + DistractorPart1
  }

  /** The VALUES list of a distractor query: the text between its fixed head and tail. */
  function ValuesOf(q: string): string {
    Inner(q, |DistractorPart0|, |DistractorPart1|)
  }

  /** The batched query for tournament `k` names the other nine tournaments,
      each once, and not tournament `k` itself. */
  lemma DistractorQueryNamesOthers(k: nat)
    requires k < |Tournaments|
    ensures var ids := OtherIds(Tournaments, Tournaments[k].1);
      && Split(ValuesOf(DistractorQuery(Tournaments[k].1)), ' ') == Prefixed(ids)
      && |ids| == |Tournaments| - 1
      && Tournaments[k].1 !in ids
      && forall j :: 0 <= j < |Tournaments| && j != k ==> Tournaments[j].1 in ids
  {
    var ids := OtherIds(Tournaments, Tournaments[k].1);
    TournamentIdsDistinct();
    OtherIdsCount(Tournaments, k);
    InnerOf(DistractorPart0, ValuesClause(ids), DistractorPart1);
    forall j | 0 <= j < |Tournaments| && j != k ensures Tournaments[j].1 in ids {
      assert Tournaments[j].1 != Tournaments[k].1;
    }
    TournamentIdsPlain();
    forall i | 0 <= i < |ids| ensures ' ' !in ids[i] {
      assert ids[i] in ids;
      var j :| 0 <= j < |Tournaments| && Tournaments[j].1 == ids[i];
    }
    ValuesClauseLists(ids);
  }

  const PlayerPart0: string :=
    "\n" +
    "    SELECT DISTINCT ?jugadorLabel ?imagen ?equipo1Start ?equipo1End ?equipo1Matches ?equipo1Goals\n" +
    "                    ?equipo2Start ?equipo2End ?equipo2Matches ?equipo2Goals WHERE {\n" +
    "        ?jugador wdt:P31 wd:Q5;         # humano\n" +
    "                 wdt:P106 wd:Q937857;   # futbolista\n" +
    "                 wdt:P54 "
  const PlayerPart1: string :=
    ", "
  const PlayerPart2: string :=
    " # jugó en ambos clubes\n" +
    "        \n" +
    "        # Imagen del jugador (opcional)\n" +
    "        OPTIONAL { ?jugador wdt:P18 ?imagen . }\n" +
    "        \n" +
    "        # Información del primer equipo\n" +
    "        OPTIONAL {\n" +
    "            ?jugador p:P54 ?stmt1 .\n" +
    "            ?stmt1 ps:P54 "
  const PlayerPart3: string :=
    " .\n" +
    "            OPTIONAL { ?stmt1 pq:P580 ?equipo1Start . }\n" +
    "            OPTIONAL { ?stmt1 pq:P582 ?equipo1End . }\n" +
    "            OPTIONAL { ?stmt1 pq:P1350 ?equipo1Matches . }\n" +
    "            OPTIONAL { ?stmt1 pq:P1351 ?equipo1Goals . }\n" +
    "        }\n" +
    "        \n" +
    "        # Información del segundo equipo\n" +
    "        OPTIONAL {\n" +
    "            ?jugador p:P54 ?stmt2 .\n" +
    "            ?stmt2 ps:P54 "
  const PlayerPart4: string :=
    " .\n" +
    "            OPTIONAL { ?stmt2 pq:P580 ?equipo2Start . }\n" +
    "            OPTIONAL { ?stmt2 pq:P582 ?equipo2End . }\n" +
    "            OPTIONAL { ?stmt2 pq:P1350 ?equipo2Matches . }\n" +
    "            OPTIONAL { ?stmt2 pq:P1351 ?equipo2Goals . }\n" +
    "        }\n" +
    "        \n" +
    "        "
  const PlayerPart5: string :=
    " != "
  const PlayerPart6: string :=
    "\n" +
    "        SERVICE wikibase:label { bd:serviceParam wikibase:language \"es,en\". }\n" +
    "    }\n" +
    "    "
  /** `construir_query_jugador(u1, u2)`: players who were at both clubs, with an
      optional image and each club's optional tenure statements. It is written
      in three parts: the head, which ends with the club-tenure patterns, the
      filter comparing the two clubs, and the fixed tail. Both clubs can be read
      back from the text when their identifiers hold no ',' or '.', and the
      filter that rules out one club paired with itself is in it. */
  function PlayerQuery(u1: string, u2: string): (q: string)
    ensures ',' !in u1 && '.' !in u2 ==> QueriedClubs(q) == (u1, u2)
    ensures IsSubstring("FILTER(" + u1 + " != " + u2 + ")", q)
  {
    var filter := SameClubFilter(u1, u2);
    InConcat(filter, PlayerHead(u1, u2), PlayerPart6);
    if ',' !in u1 && '.' !in u2 then
      ReadClubsOf(PlayerPart0, u1, u2, PlayerMiddle(u1, u2), filter, PlayerPart6);
      PlayerHead(u1, u2) + filter + PlayerPart6
    else
      PlayerHead(u1, u2) + filter + PlayerPart6
  }

  /** The filter of the player query. */
  function SameClubFilter(u1: string, u2: string): string {
    "FILTER(" + u1 + PlayerPart5 + u2 + ")"
  }

  function PlayerHead(u1: string, u2: string): string {
    PlayerPart0 + u1 + PlayerPart1 + u2 + "." + PlayerMiddle(u1, u2)
  }

  function PlayerMiddle(u1: string, u2: string): string {
    PlayerPart2 + u1 + PlayerPart3 + u2 + PlayerPart4
  }

  /** The two clubs named after the first `n` characters of `q`: the text up to
      the first ',', and after ", " the text up to the next '.'. */
  function ReadClubs(q: string, n: nat): (string, string) {
    if |q| < n then ("", "")
    else
      var rest := q[n..];
      var a := Before(rest, ',');
      var after := if |a| + 2 <= |rest| then rest[|a| + 2..] else "";
      (a, Before(after, '.'))
  }

  /** The two clubs a player query asks about, read back from its text. */
  function QueriedClubs(q: string): (string, string) {
    ReadClubs(q, |PlayerPart0|)
  }

  lemma ReadClubsOf(h: string, u1: string, u2: string, m: string, f: string, t: string)
    requires ',' !in u1 && '.' !in u2
    ensures ReadClubs(h + u1 + ", " + u2 + "." + m + f + t, |h|) == (u1, u2)
  {
    var tail := m + f + t;
    var q := h + u1 + ", " + u2 + "." + m + f + t;
    var rest := u1 + [','] + (" " + u2 + ['.'] + tail);
    assert q[|h|..] == rest;
    BeforeSeparator(u1, ',', " " + u2 + ['.'] + tail);
    assert rest[|u1| + 2..] == u2 + ['.'] + tail;
    BeforeSeparator(u2, '.', tail);
  }

  /** Every club identifier but Dortmund's carries the "wd:" prefix the query
      syntax needs; Dortmund's is written bare. */
  lemma TeamIdPrefixes()
    ensures forall k :: 0 <= k < |Teams| - 1 ==> IsPrefix("wd:", Teams[k].1.uri)
    ensures !IsPrefix("wd:", Teams[|Teams| - 1].1.uri)
  {
    assert Teams[|Teams| - 1].1.uri[0] == 'Q';
  }

  /** No club identifier holds ',' or '.', so each can be read back from the
      player query. */
  lemma TeamIdsUsable()
    ensures forall k :: 0 <= k < |Teams| ==> ',' !in Teams[k].1.uri && '.' !in Teams[k].1.uri
  {
  }
}
