/**
 * InvertSelectionModifier::modifyParticles
 * (src/plugins/particles/modifier/selection/InvertSelectionModifier.cpp):
 * every entry of the integer selection property is replaced by its C
 * logical negation, in place.
 */
module InvertSelection {

  /** ObjectStatus codes; this modifier only ever reports Success. */
  datatype ObjectStatus = Success | Warning | Error

  /** The C expression `!s` on an int: 1 for 0, and 0 for anything else. */
  function Not(v: int): int
  {
    if v == 0 then 1 else 0
  }

  /** The selection after inversion. */
  function Inverted(s: seq<int>): (r: seq<int>)
    ensures |r| == |s|
    ensures forall i :: 0 <= i < |s| ==> (r[i] == 1 <==> s[i] == 0)
    ensures forall i :: 0 <= i < |s| ==> r[i] == 0 || r[i] == 1
  {
    seq(|s|, i requires 0 <= i < |s| => Not(s[i]))
  }

  /** A selection in canonical form: every entry is 0 or 1. */
  predicate IsFlagArray(s: seq<int>)
  {
    forall i :: 0 <= i < |s| ==> s[i] == 0 || s[i] == 1
  }

  /** Number of selected particles: entries that are not 0. */
  function CountSelected(s: seq<int>): nat
  {
    if s == [] then 0 else (if s[0] != 0 then 1 else 0) + CountSelected(s[1..])
  }

  /** Inverting twice gives back any 0/1 selection. */
  lemma InvertTwiceIsIdentity(s: seq<int>)
    requires IsFlagArray(s)
    ensures Inverted(Inverted(s)) == s
  {
  }

  /** The inverted selection selects exactly the particles that were not selected. */
  lemma {:induction false} InvertedCount(s: seq<int>)
    ensures CountSelected(Inverted(s)) == |s| - CountSelected(s)
    decreases |s|
  {
    if s != [] {
      InvertedCount(s[1..]);
      assert Inverted(s)[1..] == Inverted(s[1..]);
    }
  }

  /**
   * modifyParticles: the loop over the selection property's integers. Only
   * the selection array is written, its length stays, and Success is returned.
   */
  method ModifyParticles(selection: array<int>) returns (status: ObjectStatus)
    modifies selection
    ensures selection[..] == Inverted(old(selection[..]))
    ensures status == Success
  {
    for i := 0 to selection.Length
      invariant forall j :: 0 <= j < i ==> selection[j] == Not(old(selection[j]))
      invariant forall j :: i <= j < selection.Length ==> selection[j] == old(selection[j])
    {
      selection[i] := Not(selection[i]);
    }
    return Success;
  }
}
