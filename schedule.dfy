/** Match generation: the game-type list read from the meta row, the 3/3
    split of a round's six picked players, and the per-round plan of matches
    that `generate_tournament` inserts. */
module Schedule {
  import opened Base
  import opened Text
  import opened Model

  /** The game types used when the stored list has no non-blank entry. */
  const DefaultGameTypes: seq<string> := ["Type A", "Type B", "Type C"]

  /** A non-empty string with no whitespace at either end: what `strip()`
      leaves of a non-blank string. */
  predicate Stripped(s: string) {
    s != [] && !IsSpace(s[0]) && !IsSpace(s[|s| - 1])
  }

  /** `[x.strip() for x in parts if x.strip()]`: the stripped pieces that are
      not blank, in order. */
  function NonBlankTrimmed(parts: seq<string>): (r: seq<string>)
    ensures |r| <= |parts|
    ensures forall i :: 0 <= i < |r| ==> Stripped(r[i])
  {
    if parts == [] then []
    else
      var t := Trim(parts[0]);
      (if t == [] then [] else [t]) + NonBlankTrimmed(parts[1..])
  }

  /** Nothing is left exactly when every piece is blank. */
  lemma {:induction false} NonBlankTrimmedEmpty(parts: seq<string>)
    ensures NonBlankTrimmed(parts) == [] <==> forall i :: 0 <= i < |parts| ==> Blank(parts[i])
  {
    if parts != [] {
      NonBlankTrimmedEmpty(parts[1..]);
      assert forall i :: 1 <= i < |parts| ==> parts[i] == parts[1..][i - 1];
    }
  }

  /** Exactly the stripped forms of the non-blank pieces are kept: every entry
      left is the stripped form of one of the pieces, and the stripped form of
      every non-blank piece is left. */
  lemma {:induction false} NonBlankTrimmedFrom(parts: seq<string>)
    ensures forall x :: x in NonBlankTrimmed(parts) ==> exists j :: 0 <= j < |parts| && x == Trim(parts[j])
    ensures forall j :: 0 <= j < |parts| && !Blank(parts[j]) ==> Trim(parts[j]) in NonBlankTrimmed(parts)
  {
    if parts != [] {
      NonBlankTrimmedFrom(parts[1..]);
      forall x | x in NonBlankTrimmed(parts) ensures exists j :: 0 <= j < |parts| && x == Trim(parts[j]) {
        if x in NonBlankTrimmed(parts[1..]) {
          var j :| 0 <= j < |parts[1..]| && x == Trim(parts[1..][j]);
          assert x == Trim(parts[j + 1]);
        } else {
          assert x == Trim(parts[0]);
        }
      }
      forall j | 0 <= j < |parts| && !Blank(parts[j]) ensures Trim(parts[j]) in NonBlankTrimmed(parts) {
        if j > 0 {
          assert parts[j] == parts[1..][j - 1];
        }
      }
    }
  }

  /** One piece is kept, stripped, exactly when it is not blank. */
  lemma NonBlankTrimmedPiece(x: string)
    ensures NonBlankTrimmed([x]) == if Blank(x) then [] else [Trim(x)]
  {
    assert [x][1..] == [];
  }

  /** The first piece's contribution comes first. */
  lemma NonBlankTrimmedCons(parts: seq<string>)
    requires parts != []
    ensures NonBlankTrimmed(parts) == NonBlankTrimmed([parts[0]]) + NonBlankTrimmed(parts[1..])
  {
    assert [parts[0]][1..] == [];
  }

  /** The comprehension works piece by piece, in order: the pieces of a
      concatenation give the entries of the first part followed by those of
      the second, repeats included. */
  lemma {:induction false} NonBlankTrimmedAppend(a: seq<string>, b: seq<string>)
    ensures NonBlankTrimmed(a + b) == NonBlankTrimmed(a) + NonBlankTrimmed(b)
  {
    if a == [] {
      assert a + b == b;
    } else {
      var head := NonBlankTrimmed([a[0]]);
      NonBlankTrimmedCons(a);
      assert (a + b)[0] == a[0] && (a + b)[1..] == a[1..] + b;
      NonBlankTrimmedCons(a + b);
      NonBlankTrimmedAppend(a[1..], b);
      ConcatAssociates(head, NonBlankTrimmed(a[1..]), NonBlankTrimmed(b));
    }
  }

  /** Pieces that are already stripped are kept as they are. */
  lemma {:induction false} NonBlankTrimmedOfTrimmed(parts: seq<string>)
    requires forall i :: 0 <= i < |parts| ==> Stripped(parts[i])
    ensures NonBlankTrimmed(parts) == parts
  {
    if parts != [] {
      TrimOfTrimmed(parts[0]);
      NonBlankTrimmedOfTrimmed(parts[1..]);
      assert parts == [parts[0]] + parts[1..];
    }
  }

  /** The game types of a meta row: its comma-separated column, each entry
      stripped, blank entries dropped, and the three default types when
      nothing is left. The list is never empty and every entry is stripped
      and non-blank. */
  function ParseGameTypes(column: string): (types: seq<string>)
    ensures types != []
    ensures forall i :: 0 <= i < |types| ==> Stripped(types[i])
  {
    var parsed := NonBlankTrimmed(Split(column, ','));
    if parsed == [] then DefaultGameTypes else parsed
  }

  /** A column whose entries are all blank yields the default game types. */
  lemma BlankColumnDefaults(column: string)
    requires forall i :: 0 <= i < |Split(column, ',')| ==> Blank(Split(column, ',')[i])
    ensures ParseGameTypes(column) == DefaultGameTypes
  {
    NonBlankTrimmedEmpty(Split(column, ','));
  }

  /** A column with a non-blank entry yields its stripped non-blank pieces in
      column order (the comprehension, with no fallback), which are exactly the
      stripped forms of its non-blank pieces. */
  lemma GameTypesFromColumn(column: string)
    requires exists i :: 0 <= i < |Split(column, ',')| && !Blank(Split(column, ',')[i])
    ensures ParseGameTypes(column) == NonBlankTrimmed(Split(column, ','))
    ensures forall x :: x in ParseGameTypes(column) ==> exists j :: 0 <= j < |Split(column, ',')| && x == Trim(Split(column, ',')[j])
    ensures forall j :: 0 <= j < |Split(column, ',')| && !Blank(Split(column, ',')[j]) ==> Trim(Split(column, ',')[j]) in ParseGameTypes(column)
  {
    var parts := Split(column, ',');
    NonBlankTrimmedEmpty(parts);
    NonBlankTrimmedFrom(parts);
    assert ParseGameTypes(column) == NonBlankTrimmed(parts);
  }

  /** Reading a column from its first entry on: the first comma-separated
      piece contributes its stripped form (when not blank) ahead of the
      entries of the rest of the column. */
  lemma ColumnEntriesInOrder(first: string, rest: string)
    requires ',' !in first
    ensures NonBlankTrimmed(Split(first + [','] + rest, ',')) ==
      (if Blank(first) then [] else [Trim(first)]) + NonBlankTrimmed(Split(rest, ','))
  {
    SplitAtSeparator(first, rest, ',');
    NonBlankTrimmedAppend([first], Split(rest, ','));
    NonBlankTrimmedPiece(first);
  }

  /** Writing a list of clean game types as a comma-separated column and
      parsing it back gives the list. */
  lemma ParseJoinedGameTypes(types: seq<string>)
    requires types != []
    requires forall i :: 0 <= i < |types| ==> Stripped(types[i]) && ',' !in types[i]
    ensures ParseGameTypes(Join(types, ',')) == types
  {
    SplitJoin(types, ',');
    NonBlankTrimmedOfTrimmed(types);
  }

  /** The column default of `tournament_meta.game_types` parses to the same
      three types as the fallback. */
  lemma DefaultColumnParses()
    ensures ParseGameTypes(DefaultGameTypesColumn) == DefaultGameTypes
  {
    assert Join(DefaultGameTypes, ',') == DefaultGameTypesColumn;
    ParseJoinedGameTypes(DefaultGameTypes);
  }

  /** The game type of round `round` (counted from 1): the configured types
      taken round-robin, starting from the first. */
  function GameTypeOf(gameTypes: seq<string>, round: int): (g: string)
    requires gameTypes != [] && round >= 1
    ensures g in gameTypes
    ensures round <= |gameTypes| ==> g == gameTypes[round - 1]
  {
    gameTypes[(round - 1) % |gameTypes|]
  }

  /** A positive factor of at least one does not shrink a positive number. */
  lemma {:induction false} MulAtLeast(n: int, k: int)
    requires n > 0
    ensures k >= 1 ==> n * k >= n
    decreases if k < 1 then 0 else k
  {
    if k > 1 {
      MulAtLeast(n, k - 1);
      assert n * k == n * (k - 1) + n;
    }
  }

  /** Euclidean remainder is determined by any decomposition x = n * d + r. */
  lemma ModOfDecomposition(x: int, n: int, d: int, r: int)
    requires n > 0 && 0 <= r < n && x == n * d + r
    ensures x % n == r
  {
    var e := x / n - d;
    assert n * e == r - x % n;
    MulAtLeast(n, e);
    MulAtLeast(n, -e);
    assert n * -e == -(n * e);
  }

  /** The game types cycle: round `r + |gameTypes|` plays the type of round
      `r`. */
  lemma GameTypesCycle(gameTypes: seq<string>, round: int)
    requires gameTypes != [] && round >= 1
    ensures GameTypeOf(gameTypes, round + |gameTypes|) == GameTypeOf(gameTypes, round)
  {
    var n := |gameTypes|;
    var q := round - 1;
    ModOfDecomposition(q, n, q / n, q % n);
    ModOfDecomposition(q + n, n, q / n + 1, q % n);
  }

  /** Python's `s[:n]`. */
  function Prefix(s: seq<string>, n: nat): seq<string> {
    if |s| <= n then s else s[..n]
  }

  /** Python's `s[n:]`. */
  function Suffix(s: seq<string>, n: nat): seq<string> {
    if |s| <= n then [] else s[n..]
  }

  /** `split_teams`: the first three players form team A, the rest team B. */
  function SplitTeams(players6: seq<string>): (teams: (seq<string>, seq<string>))
    ensures teams.0 + teams.1 == players6
    ensures |teams.0| == if |players6| < 3 then |players6| else 3
  {
    (Prefix(players6, 3), Suffix(players6, 3))
  }

  /** The per-round order `random.shuffle` leaves the copied roster in: the
      list it produces for round `r` from list `s`. */
  type Shuffle = (int, seq<string>) -> seq<string>

  /** A shuffle only reorders: every list it returns is a permutation of the
      list it was given. */
  ghost predicate IsShuffle(shuffle: Shuffle) {
    forall r: int, s: seq<string> :: multiset(Shuffled(shuffle, r, s)) == multiset(s)
  }

  /** The order `shuffle` leaves `s` in for round `round`. Naming the
      application gives the quantifier of `IsShuffle` a term to match on, so
      that each use of the shuffle brings in its permutation fact. */
  function Shuffled(shuffle: Shuffle, round: int, s: seq<string>): seq<string> {
    shuffle(round, s)
  }

  /** The match inserted for round `round`: the first six players of that
      round's shuffle of the whole roster, split 3/3, with the round-robin
      game type and no winner. */
  function RoundMatch(tid: nat, id: nat, round: int, roster: seq<string>, gameTypes: seq<string>, shuffle: Shuffle): Match
    requires gameTypes != [] && round >= 1
  {
    var teams := SplitTeams(Prefix(Shuffled(shuffle, round, roster), 6));
    Match(id, tid, round, GameTypeOf(gameTypes, round), teams.0, teams.1, None)
  }

  /** The matches of rounds 1 to `n`, in the order the loop inserts them;
      round `r` gets match id `firstId + r - 1`. */
  function Plan(tid: nat, firstId: nat, roster: seq<string>, gameTypes: seq<string>, shuffle: Shuffle, n: nat)
    : (plan: seq<Match>)
    requires gameTypes != []
    ensures |plan| == n
  {
    if n == 0 then []
    else Plan(tid, firstId, roster, gameTypes, shuffle, n - 1)
         + [RoundMatch(tid, firstId + n - 1, n, roster, gameTypes, shuffle)]
  }

  /** Entry `k` of a plan is the match of round `k + 1`. */
  lemma {:induction false} PlanAt(tid: nat, firstId: nat, roster: seq<string>, gameTypes: seq<string>, shuffle: Shuffle, n: nat)
    requires gameTypes != []
    ensures forall k :: 0 <= k < n ==>
      Plan(tid, firstId, roster, gameTypes, shuffle, n)[k] == RoundMatch(tid, firstId + k, k + 1, roster, gameTypes, shuffle)
  {
    if n > 0 {
      PlanAt(tid, firstId, roster, gameTypes, shuffle, n - 1);
    }
  }

  /** A match's teams are a proper 3v3 drawn from `roster`: three players a
      side, nobody on both sides, everybody registered. */
  ghost predicate TeamsDrawnFrom(m: Match, roster: seq<string>) {
    && |m.teamA| == 3
    && |m.teamB| == 3
    && (forall x :: x in m.teamA ==> x !in m.teamB)
    && (forall x :: x in m.teamA ==> x in roster)
    && (forall x :: x in m.teamB ==> x in roster)
  }

  /** Six or more distinct players, permuted: team A is the first three and
      team B the next three of the permutation, and they form a 3v3 drawn from
      the roster. */
  lemma ShuffledTeams(tid: nat, id: nat, round: int, roster: seq<string>, gameTypes: seq<string>, shuffle: Shuffle)
    requires gameTypes != [] && round >= 1
    requires IsShuffle(shuffle)
    requires Distinct(roster) && |roster| >= 6
    ensures |Shuffled(shuffle, round, roster)| == |roster|
    ensures var m := RoundMatch(tid, id, round, roster, gameTypes, shuffle);
      && m.teamA == Shuffled(shuffle, round, roster)[..3]
      && m.teamB == Shuffled(shuffle, round, roster)[3..6]
      && TeamsDrawnFrom(m, roster)
  {
    var picked := Shuffled(shuffle, round, roster);
    assert multiset(picked) == multiset(roster);
    PermutationOfDistinct(roster, picked);
    var m := RoundMatch(tid, id, round, roster, gameTypes, shuffle);
    assert m.teamA == picked[..3] && m.teamB == picked[3..6];
    forall x | x in m.teamA ensures x !in m.teamB {
      forall i, j | 0 <= i < 3 <= j < 6 ensures picked[i] != picked[j] { }
    }
  }

  /** What a plan of `n` rounds holds: exactly `n` matches of this tournament,
      with consecutive ids, numbered 1 to `n` in order, the game type of round
      `k + 1` being entry `k mod |gameTypes|`, and no winner. */
  lemma PlanShape(tid: nat, firstId: nat, roster: seq<string>, gameTypes: seq<string>, shuffle: Shuffle, n: nat)
    requires gameTypes != []
    ensures var plan := Plan(tid, firstId, roster, gameTypes, shuffle, n);
      && |plan| == n
      && (forall k :: 0 <= k < n ==> plan[k].round == k + 1 && plan[k].id == firstId + k)
      && (forall k :: 0 <= k < n ==> plan[k].tournamentId == tid && plan[k].winner == None)
      && (forall k :: 0 <= k < n ==> plan[k].gameType == gameTypes[k % |gameTypes|])
  {
    PlanAt(tid, firstId, roster, gameTypes, shuffle, n);
  }

  /** When the roster has six or more distinct players and the shuffle only
      reorders, every round of a plan is a 3v3 drawn from the roster. */
  lemma PlanTeams(tid: nat, firstId: nat, roster: seq<string>, gameTypes: seq<string>, shuffle: Shuffle, n: nat)
    requires gameTypes != []
    requires IsShuffle(shuffle) && Distinct(roster) && |roster| >= 6
    ensures forall k :: 0 <= k < n ==> TeamsDrawnFrom(Plan(tid, firstId, roster, gameTypes, shuffle, n)[k], roster)
  {
    PlanAt(tid, firstId, roster, gameTypes, shuffle, n);
    forall k | 0 <= k < n
      ensures TeamsDrawnFrom(Plan(tid, firstId, roster, gameTypes, shuffle, n)[k], roster)
    {
      ShuffledTeams(tid, firstId + k, k + 1, roster, gameTypes, shuffle);
    }
  }

  /** With the meta row's defaults a generation plays five rounds whose game
      types run Type A, Type B, Type C, Type A, Type B. */
  lemma DefaultPlanGameTypes(tid: nat, firstId: nat, roster: seq<string>, shuffle: Shuffle)
    ensures var plan := Plan(tid, firstId, roster, ParseGameTypes(DefaultGameTypesColumn), shuffle, DefaultRounds);
      && |plan| == 5
      && plan[0].gameType == "Type A" && plan[1].gameType == "Type B" && plan[2].gameType == "Type C"
      && plan[3].gameType == "Type A" && plan[4].gameType == "Type B"
  {
    DefaultColumnParses();
    PlanShape(tid, firstId, roster, DefaultGameTypes, shuffle, DefaultRounds);
  }
}
