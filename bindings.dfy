/** Folding the rows of the shared-player query (`buscar_jugadores_en_ambos_clubes`)
    into one record per player: an optional image and, for each of the two clubs,
    optional start year, end year, matches and goals. */
module Bindings {
  import opened Wrappers

  /** One result row: each bound variable name and the `value` of its binding.
      A variable the row leaves unbound is absent from the map. */
  type Row = map<string, string>

  /** `run_query` against the graph endpoint, as a function of the query text:
      `None` when the call failed, otherwise the result rows. */
  type Endpoint = string -> Option<seq<Row>>

  const Label: string := "jugadorLabel"

  datatype Tenure = Tenure(start: Option<string>, end: Option<string>,
                           matches: Option<string>, goals: Option<string>)

  datatype Player = Player(image: Option<string>, team1: Tenure, team2: Tenure)

  const NoTenure: Tenure := Tenure(None, None, None, None)

  /** The record a player gets when first seen: every field `None`. */
  const NewPlayer: Player := Player(None, NoTenure, NoTenure)

  /** The resulting dictionary: its keys in insertion order, and the records. */
  datatype Table = Table(names: seq<string>, records: map<string, Player>)

  predicate ValidTable(t: Table) {
    (forall i, j :: 0 <= i < j < |t.names| ==> t.names[i] != t.names[j])
    && t.records.Keys == set n | n in t.names
  }

  const EmptyTable: Table := Table([], map[])

  /** `value[:4] if value else None`: an empty value clears the year, any other
      value keeps its first four characters (all of it when shorter). */
  function Year(v: string): (y: Option<string>)
    ensures y.None? <==> v == ""
    ensures y.Some? ==> |y.value| == (if |v| < 4 then |v| else 4) && y.value == v[..|y.value|]
  {
    if v == "" then None else if |v| <= 4 then Some(v) else Some(v[..4])
  }

  /** The nine fields a row can set, naming them once for the lemmas below. */
  datatype Club = First | Second
  datatype Field = Image | Start(club: Club) | End(club: Club) | Matches(club: Club) | Goals(club: Club)

  /** The query variable that carries a field. */
  function Var(f: Field): string {
    match f
    case Image => "imagen"
    case Start(First) => "equipo1Start"
    case End(First) => "equipo1End"
    case Matches(First) => "equipo1Matches"
    case Goals(First) => "equipo1Goals"
    case Start(Second) => "equipo2Start"
    case End(Second) => "equipo2End"
    case Matches(Second) => "equipo2Matches"
    case Goals(Second) => "equipo2Goals"
  }

  function TenureOf(p: Player, c: Club): Tenure {
    if c == First then p.team1 else p.team2
  }

  function Get(p: Player, f: Field): Option<string> {
    match f
    case Image => p.image
    case Start(c) => TenureOf(p, c).start
    case End(c) => TenureOf(p, c).end
    case Matches(c) => TenureOf(p, c).matches
    case Goals(c) => TenureOf(p, c).goals
  }

  /** What a present value becomes: a year for start and end, verbatim otherwise. */
  function Converted(f: Field, v: string): Option<string> {
    if f.Start? || f.End? then Year(v) else Some(v)
  }

  /** One `if "<var>" in r:` of the loop body. */
  function Update(current: Option<string>, r: Row, v: string, year: bool): Option<string> {
    if v in r then (if year then Year(r[v]) else Some(r[v])) else current
  }

  function UpdateTenure(t: Tenure, r: Row, c: Club): Tenure {
    Tenure(Update(t.start, r, Var(Start(c)), true),
           Update(t.end, r, Var(End(c)), true),
           Update(t.matches, r, Var(Matches(c)), false),
           Update(t.goals, r, Var(Goals(c)), false))
  }

  /** The field updates one row makes to its player's record. */
  function ApplyRow(p: Player, r: Row): Player {
    Player(Update(p.image, r, Var(Image), false),
           UpdateTenure(p.team1, r, First),
           UpdateTenure(p.team2, r, Second))
  }

  /** A row touches exactly the fields whose variable it binds: such a field
      takes the converted value, every other field keeps its value. */
  lemma ApplyRowField(p: Player, r: Row, f: Field)
    ensures Get(ApplyRow(p, r), f) == if Var(f) in r then Converted(f, r[Var(f)]) else Get(p, f)
  {
  }

  predicate Labelled(rows: seq<Row>) {
    forall i :: 0 <= i < |rows| ==> Label in rows[i]
  }

  /** One iteration of the loop: the player is added on first sight with all
      fields `None`, then the row's fields are applied. */
  function Step(t: Table, r: Row): Table
    requires Label in r
  {
    var n := r[Label];
    var p := if n in t.records then t.records[n] else NewPlayer;
    Table(if n in t.records then t.names else t.names + [n], t.records[n := ApplyRow(p, r)])
  }

  /** The dictionary after all rows, in order. */
  function Fold(rows: seq<Row>): Table
    requires Labelled(rows)
    decreases |rows|
  {
    if rows == [] then EmptyTable
    else
      var pre := rows[..|rows| - 1];
      assert forall i :: 0 <= i < |pre| ==> pre[i] == rows[i];
      Step(Fold(pre), rows[|rows| - 1])
  }

  /** One step keeps the table well formed and adds exactly the row's player
      to the keys. */
  lemma StepKeys(t: Table, r: Row)
    requires ValidTable(t) && Label in r
    ensures ValidTable(Step(t, r))
    ensures Step(t, r).records.Keys == t.records.Keys + {r[Label]}
  {
    var n := r[Label];
    if n !in t.records {
      assert n !in t.names;
      var names := t.names + [n];
      assert forall i :: 0 <= i < |t.names| ==> names[i] == t.names[i] != n;
      assert (set m | m in names) == (set m | m in t.names) + {n};
    }
  }

  /** Every row's player becomes exactly one key, nothing else does, and the
      key order lists each of them once. */
  lemma {:induction false} FoldKeys(rows: seq<Row>)
    requires Labelled(rows)
    ensures ValidTable(Fold(rows))
    ensures forall n :: n in Fold(rows).records <==> exists i :: 0 <= i < |rows| && rows[i][Label] == n
    decreases |rows|
  {
    if rows != [] {
      var k := |rows| - 1;
      var pre := rows[..k];
      assert forall i :: 0 <= i < k ==> pre[i] == rows[i];
      FoldKeys(pre);
      StepKeys(Fold(pre), rows[k]);
      assert Fold(rows) == Step(Fold(pre), rows[k]);
      forall n ensures n in Fold(rows).records <==> exists i :: 0 <= i < |rows| && rows[i][Label] == n {
        if n in Fold(pre).records {
          var i :| 0 <= i < k && pre[i][Label] == n;
          assert rows[i][Label] == n;
        }
        if exists i :: 0 <= i < |rows| && rows[i][Label] == n {
          var i :| 0 <= i < |rows| && rows[i][Label] == n;
          if i < k {
            assert pre[i][Label] == n;
          }
        }
      }
    }
  }

  /** Folding one more row: its player gains the row's fields and keeps the
      others; a new player is appended to the key order; every other player is
      untouched. */
  lemma FoldSnoc(rows: seq<Row>, r: Row)
    requires Labelled(rows) && Label in r
    ensures Labelled(rows + [r])
    ensures var before, after, n := Fold(rows), Fold(rows + [r]), r[Label];
      && (forall m :: m in before.records && m != n ==> m in after.records && after.records[m] == before.records[m])
      && n in after.records
      && after.names == (if n in before.records then before.names else before.names + [n])
      && forall f :: Get(after.records[n], f) ==
           if Var(f) in r then Converted(f, r[Var(f)])
           else if n in before.records then Get(before.records[n], f) else None
  {
    assert (rows + [r])[..|rows|] == rows;
    forall f ensures Get(ApplyRow(NewPlayer, r), f) == if Var(f) in r then Converted(f, r[Var(f)]) else None {
      ApplyRowField(NewPlayer, r, f);
    }
    if r[Label] in Fold(rows).records {
      forall f ensures Get(ApplyRow(Fold(rows).records[r[Label]], r), f)
        == if Var(f) in r then Converted(f, r[Var(f)]) else Get(Fold(rows).records[r[Label]], f) {
        ApplyRowField(Fold(rows).records[r[Label]], r, f);
      }
    }
  }

  /** Row `i` holds a value for field `f` of player `n`. */
  predicate Sets(rows: seq<Row>, i: int, n: string, f: Field) {
    0 <= i < |rows| && Label in rows[i] && rows[i][Label] == n && Var(f) in rows[i]
  }

  /** The last row that holds a value wins: each field of each player is the
      converted value from the last row for that player binding its variable,
      and `None` when no such row exists. */
  lemma {:induction false} FoldLastWins(rows: seq<Row>, n: string, f: Field)
    requires Labelled(rows) && n in Fold(rows).records
    ensures (forall i :: !Sets(rows, i, n, f)) ==> Get(Fold(rows).records[n], f) == None
    ensures forall i :: Sets(rows, i, n, f) && (forall j :: i < j ==> !Sets(rows, j, n, f)) ==>
              Get(Fold(rows).records[n], f) == Converted(f, rows[i][Var(f)])
    decreases |rows|
  {
    var k := |rows| - 1;
    var pre, r := rows[..k], rows[k];
    assert rows == pre + [r];
    FoldSnoc(pre, r);
    var before, after := Fold(pre), Fold(rows);
    forall i | 0 <= i < k ensures Sets(pre, i, n, f) == Sets(rows, i, n, f) {
      assert pre[i] == rows[i];
    }
    if r[Label] == n && Var(f) in r {
      assert Sets(rows, k, n, f);
      assert Get(after.records[n], f) == Converted(f, r[Var(f)]);
    } else {
      assert !Sets(rows, k, n, f);
      assert Get(after.records[n], f) == if n in before.records then Get(before.records[n], f) else None;
      if n in before.records {
        FoldLastWins(pre, n, f);
      } else {
        FoldKeys(pre);
        forall i | 0 <= i < k ensures !Sets(pre, i, n, f) {
          assert pre[i][Label] != n;
        }
      }
      forall i | Sets(rows, i, n, f) && (forall j :: i < j ==> !Sets(rows, j, n, f))
        ensures i < k && Sets(pre, i, n, f) && (forall j :: i < j ==> !Sets(pre, j, n, f))
      {
      }
    }
  }

  /** For the same rows in another order the result can differ: the fold is
      not commutative, because the last value wins. */
  lemma FoldDependsOnOrder()
    ensures var a, b := map[Label := "Ronaldo", "imagen" := "a.jpg"], map[Label := "Ronaldo", "imagen" := "b.jpg"];
      Fold([a, b]) != Fold([b, a])
  {
    var a, b := map[Label := "Ronaldo", "imagen" := "a.jpg"], map[Label := "Ronaldo", "imagen" := "b.jpg"];
    FoldLastWins([a, b], "Ronaldo", Image);
    FoldLastWins([b, a], "Ronaldo", Image);
    assert Sets([a, b], 1, "Ronaldo", Image) && Sets([b, a], 1, "Ronaldo", Image);
  }

  /** The fold of one more prefix row is one more `Step`. */
  lemma FoldPrefix(rows: seq<Row>, i: nat)
    requires Labelled(rows) && i < |rows|
    ensures Labelled(rows[..i]) && Labelled(rows[..i + 1])
    ensures Fold(rows[..i + 1]) == Step(Fold(rows[..i]), rows[i])
  {
    assert rows[..i + 1][..i] == rows[..i];
  }

  /** The loop of `buscar_jugadores_en_ambos_clubes` that fills the dictionary
      in place, row by row; it computes `Fold`. */
  method FoldRows(rows: seq<Row>) returns (t: Table)
    requires Labelled(rows)
    ensures t == Fold(rows)
  {
    var names: seq<string> := [];
    var players: map<string, Player> := map[];
    var i := 0;
    while i < |rows|
      invariant 0 <= i <= |rows|
      invariant Table(names, players) == Fold(rows[..i])
    {
      var r := rows[i];
      var name := r[Label];
      ghost var before := Table(names, players);
      ghost var p0 := if name in players then players[name] else NewPlayer;
      FoldPrefix(rows, i);
      if name !in players {
        players := players[name := NewPlayer];
        names := names + [name];
      }
      var p := ApplyRowInPlace(players[name], r);
      players := players[name := p];
      assert players == before.records[name := ApplyRow(p0, r)];
      i := i + 1;
    }
    assert rows[..|rows|] == rows;
    t := Table(names, players);
  }

  /** The body of the loop for one record: the `if "<var>" in r:` updates of
      the player's nested dictionary, the image first and then each club's four. */
  method ApplyRowInPlace(p0: Player, r: Row) returns (p: Player)
    ensures p == ApplyRow(p0, r)
  {
    p := p0;
    if "imagen" in r {
      p := p.(image := Some(r["imagen"]));
    }
    var t1 := UpdateTenureInPlace(p.team1, r, First);
    p := p.(team1 := t1);
    var t2 := UpdateTenureInPlace(p.team2, r, Second);
    p := p.(team2 := t2);
  }

  /** The four updates of one club's record; `Var` gives the club's variable names. */
  method UpdateTenureInPlace(t0: Tenure, r: Row, c: Club) returns (t: Tenure)
    ensures t == UpdateTenure(t0, r, c)
  {
    t := t0;
    if Var(Start(c)) in r {
      t := t.(start := Year(r[Var(Start(c))]));
    }
    if Var(End(c)) in r {
      t := t.(end := Year(r[Var(End(c))]));
    }
    if Var(Matches(c)) in r {
      t := t.(matches := Some(r[Var(Matches(c))]));
    }
    if Var(Goals(c)) in r {
      t := t.(goals := Some(r[Var(Goals(c))]));
    }
  }
}
