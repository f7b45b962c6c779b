/** The "which player played for both clubs?" game: the search for the players
    two clubs share (`buscar_jugadores_en_ambos_clubes`), and the session state
    of the game with its "new pair" and "verify answer" actions. */
module PlayerGame {
  import opened Wrappers
  import opened Bindings
  import opened Matching
  import opened Queries

  /** `obtener_dos_equipos_distintos`: the two clubs are drawn from distinct
      positions of the club table. */
  predicate DistinctPair(i: nat, j: nat) {
    i < |Teams| && j < |Teams| && i != j
  }

  /** The query result is usable by the loop: every row binds the player label. */
  predicate Answers(res: Option<seq<Row>>) {
    res.Some? ==> Labelled(res.value)
  }

  /** The players dictionary built from a query result: empty when the call
      failed or returned no rows, the fold of the rows otherwise. It always has
      distinct names, one record per name, and a name exactly when some
      returned row is labelled with it. */
  function Shared(res: Option<seq<Row>>): (t: Table)
    requires Answers(res)
    ensures ValidTable(t)
    ensures forall n :: n in t.records <==>
      res.Some? && exists i :: 0 <= i < |res.value| && res.value[i][Label] == n
  {
    if res.Some? && res.value != [] then
      FoldKeys(res.value);
      Fold(res.value)
    else EmptyTable
  }

  /** What `buscar_jugadores_en_ambos_clubes` returns: both club names and
      infos, and the players dictionary. */
  datatype Search = Search(name1: string, info1: TeamInfo, name2: string, info2: TeamInfo, players: Table)

  /** `buscar_jugadores_en_ambos_clubes` for the clubs at positions `i` and `j`:
      the player query for their identifiers goes to the endpoint and its rows
      are folded by the loop. */
  method SharedPlayers(i: nat, j: nat, endpoint: Endpoint) returns (s: Search)
    requires DistinctPair(i, j)
    requires Answers(endpoint(PlayerQuery(Teams[i].1.uri, Teams[j].1.uri)))
    ensures s.name1 == Teams[i].0 && s.info1 == Teams[i].1
    ensures s.name2 == Teams[j].0 && s.info2 == Teams[j].1
    ensures s.players == Shared(endpoint(PlayerQuery(Teams[i].1.uri, Teams[j].1.uri)))
  {
    var team1, team2 := Teams[i], Teams[j];
    var res := endpoint(PlayerQuery(team1.1.uri, team2.1.uri));
    var players := EmptyTable;
    if res.Some? && res.value != [] {
      players := FoldRows(res.value);
    }
    s := Search(team1.0, team1.1, team2.0, team2.1, players);
  }

  /** Line 522: every player but the one found, in dictionary order. */
  function Others(names: seq<string>, found: string): (r: seq<string>)
    ensures forall n :: n in r <==> n in names && n != found
  {
    if names == [] then []
    else (if names[0] != found then [names[0]] else []) + Others(names[1..], found)
  }

  /** With distinct names, one player fewer than the table are listed under
      "other players" once the found one is taken out. */
  lemma {:induction false} OthersCount(names: seq<string>, found: string)
    requires forall i, j :: 0 <= i < j < |names| ==> names[i] != names[j]
    requires found in names
    ensures |Others(names, found)| == |names| - 1
  {
    if names[0] == found {
      OthersNone(names[1..], found);
    } else {
      OthersCount(names[1..], found);
    }
  }

  lemma {:induction false} OthersNone(names: seq<string>, found: string)
    requires found !in names
    ensures Others(names, found) == names
  {
    if names != [] {
      OthersNone(names[1..], found);
    }
  }

  /** The session state of the player game (`st.session_state.club1` and the rest). */
  class PlayerGame {
    var club1: string
    var club1Info: Option<TeamInfo>
    var club2: string
    var club2Info: Option<TeamInfo>
    var candidates: Table
    var found: seq<string>
    var attempts: nat
    var solved: bool

    /** The candidates form a proper dictionary; a round is solved exactly when
        one player has been found, that player is a candidate, and solving took
        at least one attempt. */
    ghost predicate Valid()
      reads this
    {
      && ValidTable(candidates)
      && |found| <= 1
      && (solved <==> |found| == 1)
      && (solved ==> attempts >= 1 && found[0] in candidates.records)
    }

    /** The initial session state (lines 431-439): no clubs and no candidates. */
    constructor ()
      ensures Valid()
      ensures club1 == "" && club2 == "" && club1Info == None && club2Info == None
      ensures candidates == EmptyTable && found == [] && attempts == 0 && !solved
    {
      club1, club2 := "", "";
      club1Info, club2Info := None, None;
      candidates := EmptyTable;
      found := [];
      attempts := 0;
      solved := false;
    }

    /** `generar_nueva_pregunta_jugador` with the clubs at positions `i` and `j`:
        the new clubs and their shared players replace the old ones, and the
        round starts over. */
    method NewPair(i: nat, j: nat, endpoint: Endpoint)
      requires DistinctPair(i, j)
      requires Answers(endpoint(PlayerQuery(Teams[i].1.uri, Teams[j].1.uri)))
      modifies this
      ensures Valid()
      ensures club1 == Teams[i].0 && club1Info == Some(Teams[i].1)
      ensures club2 == Teams[j].0 && club2Info == Some(Teams[j].1)
      ensures candidates == Shared(endpoint(PlayerQuery(Teams[i].1.uri, Teams[j].1.uri)))
      ensures found == [] && attempts == 0 && !solved
    {
      var s := SharedPlayers(i, j, endpoint);
      club1, club1Info := s.name1, Some(s.info1);
      club2, club2Info := s.name2, Some(s.info2);
      candidates := s.players;
      found := [];
      attempts := 0;
      solved := false;
    }

    /** Lines 454-456: a pair is drawn when either club is still unset, with
        the same outcome as `NewPair`; otherwise nothing changes. */
    method EnsurePair(i: nat, j: nat, endpoint: Endpoint)
      requires Valid()
      requires DistinctPair(i, j)
      requires Answers(endpoint(PlayerQuery(Teams[i].1.uri, Teams[j].1.uri)))
      modifies this
      ensures Valid()
      ensures old(club1 != "" && club2 != "") ==>
        && club1 == old(club1) && club1Info == old(club1Info)
        && club2 == old(club2) && club2Info == old(club2Info)
        && candidates == old(candidates)
        && found == old(found) && attempts == old(attempts) && solved == old(solved)
      ensures old(club1 == "" || club2 == "") ==>
        && club1 == Teams[i].0 && club1Info == Some(Teams[i].1)
        && club2 == Teams[j].0 && club2Info == Some(Teams[j].1)
        && candidates == Shared(endpoint(PlayerQuery(Teams[i].1.uri, Teams[j].1.uri)))
        && found == [] && attempts == 0 && !solved
    {
      if club1 == "" || club2 == "" {
        NewPair(i, j, endpoint);
      }
    }

    /** The "Verificar respuesta" button (lines 495-510), shown only while both
        clubs are set (line 459). Nothing happens once the round is solved or
        when the input is empty; otherwise the attempt is counted, and a name
        matching a candidate is recorded as found. */
    method Verify(input: string)
      requires Valid()
      modifies this
      ensures Valid()
      ensures club1 == old(club1) && club1Info == old(club1Info)
      ensures club2 == old(club2) && club2Info == old(club2Info)
      ensures candidates == old(candidates)
      ensures !old(Shown()) || old(solved) || input == "" ==>
        attempts == old(attempts) && found == old(found) && solved == old(solved)
      ensures old(Shown()) && !old(solved) && input != "" ==>
        var v := ValidateAnswer(input, candidates.names);
        && attempts == old(attempts) + 1
        && solved == v.0
        && found == (if v.0 then [v.1.value] else [])
    {
      if Shown() && !solved && input != "" {
        attempts := attempts + 1;
        var v := ValidateAnswer(input, candidates.names);
        if v.0 {
          found := found + [v.1.value];
          solved := true;
        }
      }
    }

    /** Line 459: the game is shown once both clubs are set. */
    predicate Shown()
      reads this
    {
      club1 != "" && club2 != ""
    }
  }
}
