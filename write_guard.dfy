/** The per-task write guard: a resolution task remembers the theme reference it
    last wrote (initially the one it was started with) and issues a persistence
    write only for an emission whose reference differs from it. */
module WriteGuard {
  import opened ThemeTypes

  /** The writes issued, in order, when a task whose remembered reference is
      `current` receives `emissions`. */
  function Writes(current: ThemeReference, emissions: seq<Emission>): (writes: seq<Emission>)
    ensures |writes| <= |emissions|
    ensures writes != [] ==> writes[0].updatedTheme != current
    decreases |emissions|
  {
    if emissions == [] then []
    else if emissions[0].updatedTheme != current then [emissions[0]] + Writes(emissions[0].updatedTheme, emissions[1..])
    else Writes(current, emissions[1..])
  }

  /** The remembered reference after `emissions`: every emission leaves it equal to
      its own reference, written or not. */
  function LastTheme(current: ThemeReference, emissions: seq<Emission>): ThemeReference
  {
    if emissions == [] then current else emissions[|emissions| - 1].updatedTheme
  }

  /** Receiving one more emission adds a write exactly when it differs from the
      remembered reference. */
  lemma {:induction false} WritesSnoc(current: ThemeReference, emissions: seq<Emission>, e: Emission)
    ensures Writes(current, emissions + [e])
         == Writes(current, emissions) + (if e.updatedTheme != LastTheme(current, emissions) then [e] else [])
    decreases |emissions|
  {
    if emissions == [] {
      assert [e][1..] == [];
    } else {
      assert (emissions + [e])[1..] == emissions[1..] + [e];
      var next := if emissions[0].updatedTheme != current then emissions[0].updatedTheme else current;
      WritesSnoc(next, emissions[1..], e);
      assert LastTheme(next, emissions[1..]) == LastTheme(current, emissions);
    }
  }

  /** Re-emitting the reference just seen issues no further write. */
  lemma NoWriteOnRepeat(current: ThemeReference, emissions: seq<Emission>, e: Emission)
    requires e.updatedTheme == LastTheme(current, emissions)
    ensures Writes(current, emissions + [e]) == Writes(current, emissions)
  {
    WritesSnoc(current, emissions, e);
  }

  /** Every write is one of the emissions, there are no more writes than
      emissions, the first write differs from the starting reference and no two
      consecutive writes carry the same reference. */
  lemma {:induction false} WritesAreChanges(current: ThemeReference, emissions: seq<Emission>)
    ensures |Writes(current, emissions)| <= |emissions|
    ensures forall w | w in Writes(current, emissions) :: w in emissions
    ensures Writes(current, emissions) != [] ==> Writes(current, emissions)[0].updatedTheme != current
    ensures forall k | 0 <= k < |Writes(current, emissions)| - 1 ::
              Writes(current, emissions)[k].updatedTheme != Writes(current, emissions)[k + 1].updatedTheme
    decreases |emissions|
  {
    if emissions != [] {
      var next := if emissions[0].updatedTheme != current then emissions[0].updatedTheme else current;
      WritesAreChanges(next, emissions[1..]);
      var rest := Writes(next, emissions[1..]);
      forall w | w in rest ensures w in emissions {
        assert w in emissions[1..];
      }
    }
  }

  /** No write is issued iff every emission carries the starting reference. */
  lemma {:induction false} NoWritesIff(current: ThemeReference, emissions: seq<Emission>)
    ensures Writes(current, emissions) == [] <==> forall k | 0 <= k < |emissions| :: emissions[k].updatedTheme == current
    decreases |emissions|
  {
    if emissions != [] {
      NoWritesIff(current, emissions[1..]);
      if emissions[0].updatedTheme == current {
        forall k | 0 <= k < |emissions| - 1 ensures emissions[1..][k] == emissions[k + 1] { }
      }
    }
  }

  /** After at least one write, the last write carries the remembered reference. */
  lemma {:induction false} LastWriteIsRemembered(current: ThemeReference, emissions: seq<Emission>)
    requires Writes(current, emissions) != []
    ensures Writes(current, emissions)[|Writes(current, emissions)| - 1].updatedTheme == LastTheme(current, emissions)
    decreases |emissions|
  {
    var next := if emissions[0].updatedTheme != current then emissions[0].updatedTheme else current;
    var rest := Writes(next, emissions[1..]);
    if rest != [] {
      LastWriteIsRemembered(next, emissions[1..]);
    } else {
      NoWritesIff(next, emissions[1..]);
      if |emissions| > 1 {
        assert emissions[1..][|emissions| - 2] == emissions[|emissions| - 1];
      }
    }
  }

  /** One resolution task's guard state: the reference it last wrote. */
  class ThemeTask {
    var currentTheme: ThemeReference

    constructor (theme: ThemeReference)
      ensures currentTheme == theme
    {
      currentTheme := theme;
    }

    /** Handles one emission; `write` says whether a persistence write is issued. */
    method Receive(e: Emission) returns (write: bool)
      modifies this
      ensures write <==> e.updatedTheme != old(currentTheme)
      ensures currentTheme == e.updatedTheme
    {
      write := e.updatedTheme != currentTheme;
      if write {
        currentTheme := e.updatedTheme;
      }
    }

    /** Handles emissions in order and returns the writes issued. */
    method ReceiveAll(emissions: seq<Emission>) returns (writes: seq<Emission>)
      modifies this
      ensures writes == Writes(old(currentTheme), emissions)
      ensures currentTheme == LastTheme(old(currentTheme), emissions)
    {
      writes := [];
      var i := 0;
      while i < |emissions|
        invariant 0 <= i <= |emissions|
        invariant writes == Writes(old(currentTheme), emissions[..i])
        invariant currentTheme == LastTheme(old(currentTheme), emissions[..i])
      {
        WritesSnoc(old(currentTheme), emissions[..i], emissions[i]);
        assert emissions[..i + 1] == emissions[..i] + [emissions[i]];
        var write := Receive(emissions[i]);
        if write {
          writes := writes + [emissions[i]];
        }
        i := i + 1;
      }
      assert emissions[..i] == emissions;
    }
  }
}
