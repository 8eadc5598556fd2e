/** The match ledger: selecting and deleting a tournament's matches, and
    recording a winner with `set_winner`. */
module Ledger {
  import opened Base
  import opened Text
  import opened Model

  /** The `winner` form field: stripped and upper-cased, it must be `A` or `B`.
      So exactly `a`, `A`, `b` and `B`, with any surrounding whitespace, are
      accepted. */
  function ParseSide(field: string): (side: Option<Side>)
    ensures side == Some(A) <==> Trim(field) == "A" || Trim(field) == "a"
    ensures side == Some(B) <==> Trim(field) == "B" || Trim(field) == "b"
  {
    var w := Upper(Trim(field));
    assert |w| == 1 ==> (w[0] == 'A' <==> Trim(field)[0] in "aA");
    assert |w| == 1 ==> (w[0] == 'B' <==> Trim(field)[0] in "bB");
    if w == "A" then Some(A) else if w == "B" then Some(B) else None
  }

  /** Match ids increase in insertion order (an AUTOINCREMENT key). */
  predicate IncreasingIds(ms: seq<Match>) {
    forall i, j :: 0 <= i < j < |ms| ==> ms[i].id < ms[j].id
  }

  /** Dropping the first match keeps ids increasing. */
  lemma IncreasingTail(ms: seq<Match>)
    requires ms != [] && IncreasingIds(ms)
    ensures IncreasingIds(ms[1..])
  {
    forall i, j | 0 <= i < j < |ms[1..]| ensures ms[1..][i].id < ms[1..][j].id {
      assert ms[1..][i] == ms[i + 1] && ms[1..][j] == ms[j + 1];
    }
  }

  /** `SELECT * FROM matches WHERE tournament_id = ?`, in insertion order. */
  function MatchesOf(ms: seq<Match>, tid: nat): (r: seq<Match>)
    ensures forall m :: m in r <==> m in ms && m.tournamentId == tid
  {
    if ms == [] then []
    else (if ms[0].tournamentId == tid then [ms[0]] else []) + MatchesOf(ms[1..], tid)
  }

  /** What `DELETE FROM matches WHERE tournament_id = ?` leaves: the other
      tournaments' matches, in order, with their ids still increasing. */
  function MatchesExcept(ms: seq<Match>, tid: nat): (r: seq<Match>)
    ensures forall m :: m in r <==> m in ms && m.tournamentId != tid
    ensures IncreasingIds(ms) ==> IncreasingIds(r)
  {
    if ms == [] then []
    else
      var rest := MatchesExcept(ms[1..], tid);
      var r := (if ms[0].tournamentId != tid then [ms[0]] else []) + rest;
      assert IncreasingIds(ms) ==> IncreasingIds(r) by {
        if IncreasingIds(ms) {
          IncreasingTail(ms);
          forall k | 0 <= k < |rest| ensures ms[0].id < rest[k].id {
            assert rest[k] in ms[1..];
          }
        }
      }
      r
  }

  /** Selecting a tournament's matches distributes over concatenation. */
  lemma {:induction false} MatchesOfAppend(xs: seq<Match>, ys: seq<Match>, tid: nat)
    ensures MatchesOf(xs + ys, tid) == MatchesOf(xs, tid) + MatchesOf(ys, tid)
  {
    if xs == [] {
      assert xs + ys == ys;
    } else {
      assert (xs + ys)[0] == xs[0];
      assert (xs + ys)[1..] == xs[1..] + ys;
      MatchesOfAppend(xs[1..], ys, tid);
    }
  }

  /** A list of one tournament's matches selects to itself. */
  lemma {:induction false} MatchesOfOwn(ms: seq<Match>, tid: nat)
    requires forall i :: 0 <= i < |ms| ==> ms[i].tournamentId == tid
    ensures MatchesOf(ms, tid) == ms
  {
    if ms != [] {
      MatchesOfOwn(ms[1..], tid);
    }
  }

  /** A list without matches of this tournament selects to nothing. */
  lemma {:induction false} MatchesOfOthers(ms: seq<Match>, tid: nat)
    requires forall i :: 0 <= i < |ms| ==> ms[i].tournamentId != tid
    ensures MatchesOf(ms, tid) == []
  {
    if ms != [] {
      MatchesOfOthers(ms[1..], tid);
    }
  }

  /** After deleting a tournament's matches and inserting new ones for it, the
      tournament's matches are exactly the new ones. */
  lemma MatchesAfterReplace(ms: seq<Match>, inserted: seq<Match>, tid: nat)
    requires forall i :: 0 <= i < |inserted| ==> inserted[i].tournamentId == tid
    ensures MatchesOf(MatchesExcept(ms, tid) + inserted, tid) == inserted
  {
    MatchesOfAppend(MatchesExcept(ms, tid), inserted, tid);
    MatchesOfOwn(inserted, tid);
    MatchesOfOthers(MatchesExcept(ms, tid), tid);
  }

  /** `UPDATE matches SET winner = ? WHERE id = ? AND tournament_id = ?`: the
      match with this id in this tournament, if there is one, gets the winner;
      every other field of every match, and every other match, is unchanged. */
  function RecordWinner(ms: seq<Match>, matchId: nat, tid: nat, side: Side): (r: seq<Match>)
    ensures |r| == |ms|
    ensures forall i :: 0 <= i < |ms| ==> r[i] == ms[i].(winner := r[i].winner)
    ensures forall i :: 0 <= i < |ms| ==> ms[i].id == matchId && ms[i].tournamentId == tid ==> r[i].winner == Some(side)
    ensures forall i :: 0 <= i < |ms| ==> ms[i].id != matchId || ms[i].tournamentId != tid ==> r[i] == ms[i]
  {
    seq(|ms|, i requires 0 <= i < |ms| =>
      if ms[i].id == matchId && ms[i].tournamentId == tid then ms[i].(winner := Some(side)) else ms[i])
  }

  /** Recording the same winner twice is recording it once. */
  lemma RecordWinnerIdempotent(ms: seq<Match>, matchId: nat, tid: nat, side: Side)
    ensures RecordWinner(RecordWinner(ms, matchId, tid, side), matchId, tid, side) == RecordWinner(ms, matchId, tid, side)
  {
  }

  /** A later recording overrides an earlier one: there is no lock after the
      first winner is set. */
  lemma RecordWinnerOverrides(ms: seq<Match>, matchId: nat, tid: nat, first: Side, second: Side)
    ensures RecordWinner(RecordWinner(ms, matchId, tid, first), matchId, tid, second) == RecordWinner(ms, matchId, tid, second)
  {
  }

  /** With increasing ids at most one match changes, and when no match of
      this tournament has this id nothing changes at all. */
  lemma RecordWinnerTouchesAtMostOne(ms: seq<Match>, matchId: nat, tid: nat, side: Side)
    requires IncreasingIds(ms)
    ensures forall i, j :: 0 <= i < j < |ms| ==>
      RecordWinner(ms, matchId, tid, side)[i] == ms[i] || RecordWinner(ms, matchId, tid, side)[j] == ms[j]
    ensures (forall i :: 0 <= i < |ms| ==> ms[i].id != matchId || ms[i].tournamentId != tid) ==>
      RecordWinner(ms, matchId, tid, side) == ms
  {
  }
}
