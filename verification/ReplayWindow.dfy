/** The receive window of the secure channel: a 64-bit bitmap behind the highest accepted
    sequence number, the anti-replay scheme of section 3.4.3 of RFC 4303.

    The bitmap refines the plain set of all numbers accepted so far. */
module ReplayWindow {

  import opened Words

  /** Highest accepted number and the bitmap of the 64 numbers up to it. */
  datatype Window = Window(max: uint64, bits: uint64)

  const EMPTY := Window(0, 0)

  /** The simple form: a number is fresh when it is not zero, was never accepted, and is
      less than 64 below the highest accepted number. */
  predicate Fresh(accepted: set<uint64>, max: uint64, s: uint64) {
    s != 0 && s !in accepted && (s > max || max - s < 64)
  }

  /** The window stands for the set: its maximum, and bit `d` for the number `max - d`. */
  ghost predicate Tracks(w: Window, accepted: set<uint64>) {
    && (forall s | s in accepted :: 0 < s <= w.max)
    && (w.max != 0 ==> w.max in accepted)
    && (forall d: nat | d < 64 :: Bit(w.bits, d) <==> d <= w.max && w.max - d in accepted)
  }

  function Slide(w: Window, s: uint64): Window
    requires s > w.max
  {
    var shift := s - w.max;
    Window(s, OrBit64(if shift >= 64 then 0 else ShiftLeft64(w.bits, shift), 0))
  }

  function Mark(w: Window, s: uint64): Window
    requires s <= w.max && w.max - s < 64
  {
    Window(w.max, OrBit64(w.bits, w.max - s))
  }

  /** One call: the new window and whether the number was accepted. */
  function Accept(w: Window, s: uint64): (Window, bool) {
    if s == 0 then (w, false)
    else if s > w.max then (Slide(w, s), true)
    else if w.max - s >= 64 || Bit(w.bits, w.max - s) then (w, false)
    else (Mark(w, s), true)
  }

  lemma SlideTracks(w: Window, s: uint64, accepted: set<uint64>)
    requires Tracks(w, accepted) && s > w.max
    ensures Tracks(Slide(w, s), accepted + {s})
  {
    var next := Slide(w, s);
    var shift := s - w.max;
    forall d: nat | d < 64
      ensures Bit(next.bits, d) <==> d <= s && s - d in accepted + {s}
    {
      var moved: uint64 := if shift >= 64 then 0 else ShiftLeft64(w.bits, shift);
      SetBit(moved, 0, d);
      if shift < 64 {
        ShiftedBit(w.bits, shift, d);
      } else {
        ZeroHasNoBits(d);
      }
      if d >= shift {
        assert w.max - (d - shift) == s - d;
      }
    }
  }

  lemma MarkTracks(w: Window, s: uint64, accepted: set<uint64>)
    requires Tracks(w, accepted) && 0 < s <= w.max && w.max - s < 64
    ensures Tracks(Mark(w, s), accepted + {s})
  {
    forall d: nat | d < 64
      ensures Bit(Mark(w, s).bits, d) <==> d <= w.max && w.max - d in accepted + {s}
    {
      SetBit(w.bits, w.max - s, d);
    }
  }

  /** The bitmap refines the set: a call accepts exactly the fresh numbers and the window
      goes on standing for everything accepted. */
  lemma AcceptRefines(w: Window, s: uint64, accepted: set<uint64>)
    requires Tracks(w, accepted)
    ensures Accept(w, s).1 <==> Fresh(accepted, w.max, s)
    ensures Tracks(Accept(w, s).0, if Accept(w, s).1 then accepted + {s} else accepted)
  {
    if s > w.max {
      SlideTracks(w, s, accepted);
    } else if s != 0 && w.max - s < 64 {
      assert Bit(w.bits, w.max - s) <==> s in accepted;
      if s !in accepted {
        MarkTracks(w, s, accepted);
      }
    }
  }

  // ---------- whole runs ----------

  function After(calls: seq<uint64>): Window {
    if calls == [] then EMPTY else Accept(After(calls[..|calls| - 1]), calls[|calls| - 1]).0
  }

  /** Whether call `i` of a run was accepted. */
  function Verdict(calls: seq<uint64>, i: nat): bool
    requires i < |calls|
  {
    Accept(After(calls[..i]), calls[i]).1
  }

  function Accepted(calls: seq<uint64>): set<uint64> {
    set i | 0 <= i < |calls| && Verdict(calls, i) :: calls[i]
  }

  lemma PrefixVerdicts(calls: seq<uint64>, n: nat)
    requires n <= |calls|
    ensures forall i | 0 <= i < n :: Verdict(calls[..n], i) == Verdict(calls, i)
  {
    forall i | 0 <= i < n
      ensures Verdict(calls[..n], i) == Verdict(calls, i)
    {
      assert calls[..n][..i] == calls[..i];
    }
  }

  lemma {:induction false} RunTracks(calls: seq<uint64>)
    ensures Tracks(After(calls), Accepted(calls))
  {
    if calls == [] {
      forall d: nat ensures !Bit(0, d) { ZeroHasNoBits(d); }
    } else {
      var n := |calls| - 1;
      RunTracks(calls[..n]);
      PrefixVerdicts(calls, n);
      AcceptRefines(After(calls[..n]), calls[n], Accepted(calls[..n]));
      assert Accepted(calls) == Accepted(calls[..n]) + if Verdict(calls, n) then {calls[n]} else {};
    }
  }

  /** Over every run, a call is accepted exactly when its number is fresh with respect to
      the numbers accepted by the calls before it. */
  lemma VerdictIsFreshness(calls: seq<uint64>, i: nat)
    requires i < |calls|
    ensures Verdict(calls, i) <==> Fresh(Accepted(calls[..i]), After(calls[..i]).max, calls[i])
  {
    RunTracks(calls[..i]);
    AcceptRefines(After(calls[..i]), calls[i], Accepted(calls[..i]));
  }

  /** No number is accepted twice in a run. */
  lemma NeverTwice(calls: seq<uint64>, i: nat, j: nat)
    requires i < j < |calls| && calls[i] == calls[j]
    ensures !(Verdict(calls, i) && Verdict(calls, j))
  {
    VerdictIsFreshness(calls, j);
    PrefixVerdicts(calls, j);
    if Verdict(calls, i) {
      assert Verdict(calls[..j], i);
      assert calls[..j][i] in Accepted(calls[..j]);
    }
  }

  /** The first call with a number succeeds unless a call at least 64 above it came first. */
  lemma FirstInWindowSucceeds(calls: seq<uint64>, i: nat)
    requires i < |calls| && calls[i] != 0
    requires forall j | 0 <= j < i :: calls[j] != calls[i] && calls[j] as int < calls[i] as int + 64
    ensures Verdict(calls, i)
  {
    RunTracks(calls[..i]);
    VerdictIsFreshness(calls, i);
    var before := calls[..i];
    var max := After(before).max;
    if max != 0 {
      var j :| 0 <= j < |before| && Verdict(before, j) && before[j] == max;
      assert max == calls[j];
    }
  }

  /** The highest number is the largest one the run accepted. */
  lemma MaxIsLargestAccepted(calls: seq<uint64>)
    ensures forall s | s in Accepted(calls) :: s <= After(calls).max
    ensures After(calls).max in Accepted(calls) || (After(calls).max == 0 && Accepted(calls) == {})
  {
    RunTracks(calls);
  }
}
