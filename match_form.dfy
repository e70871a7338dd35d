/**
 * `src/components/match-form.tsx`: the form that collects a match's players (the winner first).
 * Its state is the chosen player count, the names typed so far, whether a submission is in
 * flight, the error shown and whether the last submission succeeded.
 */
module MatchForm {
  import opened Wrappers
  import Strings
  import OrderedMap

  const FillInError: string := "All player names must be filled in"
  const UniqueError: string := "All player names must be unique"
  const SubmitError: string := "Failed to submit match result. Please try again."

  /** `Array(n).fill('')`. */
  function Blanks(n: nat): (r: seq<string>)
    ensures |r| == n && forall i :: 0 <= i < n ==> r[i] == ""
  {
    seq(n, _ => "")
  }

  /** The names after the count changes to `count`: padded with `''`, or cut to their first `count`. */
  function Resized(players: seq<string>, count: nat): (r: seq<string>)
    ensures |r| == count
    ensures forall i :: 0 <= i < count && i < |players| ==> r[i] == players[i]
    ensures forall i :: |players| <= i < count ==> r[i] == ""
  {
    if count > |players| then players + Blanks(count - |players|)
    else if count < |players| then players[..count]
    else players
  }

  /** `players.map(p => p.trim())`. */
  function Trimmed(players: seq<string>): (r: seq<string>)
    ensures |r| == |players| && forall i :: 0 <= i < |players| ==> r[i] == Strings.Trim(players[i])
  {
    seq(|players|, i requires 0 <= i < |players| => Strings.Trim(players[i]))
  }

  /** The elements of `s` as a set: `new Set(s)`. */
  function Elements<T>(s: seq<T>): set<T> {
    set i | 0 <= i < |s| :: s[i]
  }

  /** A `Set` built from a sequence is as large as the sequence exactly when nothing repeats. */
  lemma {:induction false} ElementsSize<T>(s: seq<T>)
    ensures |Elements(s)| <= |s|
    ensures |Elements(s)| == |s| <==> OrderedMap.Distinct(s)
  {
    if s != [] {
      var p, x := s[..|s| - 1], s[|s| - 1];
      ElementsSize(p);
      assert Elements(s) == Elements(p) + {x} by {
        forall y | y in Elements(s) ensures y in Elements(p) + {x} {
          var i :| 0 <= i < |s| && s[i] == y;
          if i < |p| { assert p[i] == y; }
        }
        forall y | y in Elements(p) ensures y in Elements(s) {
          var i :| 0 <= i < |p| && p[i] == y;
          assert s[i] == y;
        }
      }
      if x in Elements(p) {
        var i :| 0 <= i < |p| && p[i] == x;
        assert s[i] == s[|s| - 1];
      } else {
        if !OrderedMap.Distinct(s) {
          var i, j :| 0 <= i < j < |s| && s[i] == s[j];
          if j == |s| - 1 {
            assert p[i] == x;
          } else {
            assert p[i] == p[j];
          }
        }
        assert OrderedMap.Distinct(p) ==> OrderedMap.Distinct(s) by {
          if OrderedMap.Distinct(p) {
            forall i, j | 0 <= i < j < |s| ensures s[i] != s[j] {
              if j == |s| - 1 {
                assert s[i] == p[i] && p[i] in Elements(p);
              } else {
                assert s[i] == p[i] && s[j] == p[j];
              }
            }
          }
        }
      }
    }
  }

  /** Every name has something besides white space: `!players.some(player => !player.trim())`. */
  predicate Filled(players: seq<string>) {
    forall i :: 0 <= i < |players| ==> Strings.Trim(players[i]) != ""
  }

  /** The check `handleSubmit` makes before submitting: the error it sets, or `None` to go ahead. */
  function Validation(players: seq<string>): Option<string> {
    if !Filled(players) then Some(FillInError)
    else if |Elements(Trimmed(players))| != |players| then Some(UniqueError)
    else None
  }

  /**
   * The "filled in" error comes first, for any blank name; the "unique" error exactly when all
   * names are filled in and two of them are the same once trimmed; otherwise the form submits.
   */
  lemma ValidationSpec(players: seq<string>)
    ensures Validation(players) == Some(FillInError) <==> exists i :: 0 <= i < |players| && Strings.Trim(players[i]) == ""
    ensures Validation(players) == Some(UniqueError) <==>
              Filled(players) && exists i, j :: 0 <= i < j < |players| && Strings.Trim(players[i]) == Strings.Trim(players[j])
    ensures Validation(players).None? <==> Filled(players) && OrderedMap.Distinct(Trimmed(players))
  {
    var t := Trimmed(players);
    ElementsSize(t);
    if !OrderedMap.Distinct(t) {
      var i, j :| 0 <= i < j < |t| && t[i] == t[j];
      assert Strings.Trim(players[i]) == Strings.Trim(players[j]);
    }
  }

  class MatchForm {
    var playerCount: nat
    var players: seq<string>
    var isSubmitting: bool
    var error: Option<string>
    var success: bool

    /** One name field per player. */
    predicate Valid()
      reads this
    {
      |players| == playerCount
    }

    /** The form as first shown: two empty names, nothing submitted. */
    constructor()
      ensures playerCount == 2 && players == ["", ""]
      ensures !isSubmitting && error.None? && !success
      ensures Valid()
    {
      playerCount, players := 2, ["", ""];
      isSubmitting, error, success := false, None, false;
    }

    /**
     * `handlePlayerChange(index, value)`: the name at `index` becomes `value`. The form renders one
     * input per player, for `index` below `playerCount`, and only those inputs call it.
     */
    method HandlePlayerChange(index: nat, value: string)
      requires Valid() && index < playerCount
      modifies this
      ensures players == old(players)[index := value]
      ensures |players| == |old(players)| && players[index] == value
      ensures forall i :: 0 <= i < |players| && i != index ==> players[i] == old(players)[i]
      ensures playerCount == old(playerCount) && isSubmitting == old(isSubmitting)
      ensures error == old(error) && success == old(success)
      ensures Valid()
    {
      var newPlayers := players;
      newPlayers := newPlayers[index := value];
      players := newPlayers;
    }

    /** `handlePlayerCountChange(count)`: the count changes and the names follow it. */
    method HandlePlayerCountChange(count: nat)
      modifies this
      ensures playerCount == count && players == Resized(old(players), count)
      ensures Valid()
      ensures isSubmitting == old(isSubmitting) && error == old(error) && success == old(success)
    {
      playerCount := count;
      if count > |players| {
        players := players + Blanks(count - |players|);
      } else if count < |players| {
        players := players[..count];
      }
    }

    /**
     * `handleSubmit`, where `resolves` is whether the promise `onSubmit` returns resolves.
     * `sent` is the list `onSubmit` was called with, `None` when validation stopped it.
     */
    method HandleSubmit(resolves: bool) returns (sent: Option<seq<string>>)
      modifies this
      ensures sent.Some? <==> Validation(old(players)).None?
      ensures sent.Some? ==> sent.value == old(players)
      ensures sent.None? ==> error == Validation(old(players)) && !success && players == old(players)
      ensures sent.Some? && resolves ==> success && error.None? && players == Blanks(playerCount)
      ensures sent.Some? && !resolves ==> !success && error == Some(SubmitError) && players == old(players)
      ensures !isSubmitting && playerCount == old(playerCount)
      ensures old(Valid()) ==> Valid()
    {
      isSubmitting, error, success := true, None, false;
      var check := Validation(players);
      if check.Some? {
        error := check;
        isSubmitting := false;
        return None;
      }
      sent := Some(players);
      if resolves {
        success := true;
        players := Blanks(playerCount);
      } else {
        error := Some(SubmitError);
      }
      isSubmitting := false;
    }
  }

  /** Changing the count back and forth keeps the names that stayed and clears the rest. */
  lemma ResizeRoundTrip(players: seq<string>, count: nat)
    requires count <= |players|
    ensures Resized(Resized(players, count), |players|) == players[..count] + Blanks(|players| - count)
  {
    var r := Resized(Resized(players, count), |players|);
    assert forall i :: 0 <= i < |players| ==> r[i] == (players[..count] + Blanks(|players| - count))[i];
  }

  /** Choosing the count the form already has changes nothing; choosing one twice is choosing it once. */
  lemma ResizeIdempotent(players: seq<string>, count: nat)
    ensures Resized(players, |players|) == players
    ensures Resized(Resized(players, count), count) == Resized(players, count)
  {
  }

  /** The names a submission passes on are pairwise different, even before trimming, and none is empty. */
  lemma SentNamesDistinct(players: seq<string>)
    requires Validation(players).None?
    ensures OrderedMap.Distinct(players)
    ensures forall i :: 0 <= i < |players| ==> players[i] != ""
  {
    ValidationSpec(players);
    var t := Trimmed(players);
    forall i, j | 0 <= i < j < |players| ensures players[i] != players[j] {
      if players[i] == players[j] {
        assert false;
      }
    }
    forall i | 0 <= i < |players| ensures players[i] != "" {
      if players[i] == "" {
        assert false;
      }
    }
  }
}
