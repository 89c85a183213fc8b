/** Swapping the mnemonic marker of a menu label: `_Copy` on the bus is `&Copy` in the toolkit.

    A doubled marker stands for the character itself, a single one marks the character after it. */
module Mnemonic {
  import opened Collections

  /** What is left to append to the output once `s` is left to read; `found` tells whether the
      mnemonic has been passed. */
  function Swap(s: string, src: char, dst: char, found: bool): string
    decreases |s|
  {
    if s == [] then []
    else if s[0] == src then
      if |s| == 1 then []
      else if s[1] == src then [src] + Swap(s[2..], src, dst, found)
      else if !found then [dst] + Swap(s[1..], src, dst, true)
      else Swap(s[1..], src, dst, found)
    else if s[0] == dst then [dst, dst] + Swap(s[1..], src, dst, found)
    else [s[0]] + Swap(s[1..], src, dst, found)
  }

  method SwapMnemonicChar(input: string, src: char, dst: char) returns (out: string)
    ensures out == Swap(input, src, dst, false)
  {
    out := [];
    var mnemonicFound := false;
    var pos := 0;
    while pos < |input|
      invariant 0 <= pos <= |input|
      invariant out + Swap(input[pos..], src, dst, mnemonicFound) == Swap(input, src, dst, false)
    {
      var ch := input[pos];
      ghost var rest, before := input[pos..], out;
      ghost var todo := Swap(rest, src, dst, mnemonicFound);
      assert rest[1..] == input[pos + 1..];
      if ch == src {
        if pos == |input| - 1 {
          pos := pos + 1;
        } else if input[pos + 1] == src {
          assert rest[2..] == input[pos + 2..];
          out := out + [src];
          pos := pos + 2;
        } else if !mnemonicFound {
          mnemonicFound := true;
          out := out + [dst];
          pos := pos + 1;
        } else {
          pos := pos + 1;
        }
      } else if ch == dst {
        out := out + [dst];
        out := out + [dst];
        pos := pos + 1;
      } else {
        out := out + [ch];
        pos := pos + 1;
      }
      assert todo == out[|before|..] + Swap(input[pos..], src, dst, mnemonicFound);
      assert out == before + out[|before|..];
      Regroup(before, out[|before|..], Swap(input[pos..], src, dst, mnemonicFound));
    }
  }

  lemma Regroup(a: string, b: string, c: string)
    ensures (a + b) + c == a + (b + c)
  {
  }

  // ---------- the text a reader sees ----------

  /** The text displayed for a label whose marker is `c`: doubled markers once, single ones not at all. */
  function Visible(s: string, c: char): string
    decreases |s|
  {
    if s == [] then []
    else if s[0] != c then [s[0]] + Visible(s[1..], c)
    else if |s| >= 2 && s[1] == c then [c] + Visible(s[2..], c)
    else Visible(s[1..], c)
  }

  /** Behind the mnemonic the output holds `dst` in pairs only, so a marker put before it is always
      a single one in the end, though not always the one that was put there. */
  lemma {:induction false} MarkerBeforePairs(s: string, src: char, dst: char)
    requires src != dst
    ensures var out := Swap(s, src, dst, true); Visible([dst] + out, dst) == Visible(out, dst)
    decreases |s|
  {
    var out := Swap(s, src, dst, true);
    assert ([dst] + out)[1..] == out;
    if s == [] || s == [src] {
    } else if (s[0] == src && s[1] != src) || s[0] == dst {
      MarkerBeforePairs(s[1..], src, dst);
      if s[0] == dst {
        var rest := Swap(s[1..], src, dst, true);
        assert ([dst] + out)[2..] == [dst] + rest && out[2..] == rest;
      }
    } else {
      assert out[0] != dst;
    }
  }

  lemma {:induction false} VisibleTextIsKept(s: string, src: char, dst: char, found: bool)
    requires src != dst
    ensures Visible(Swap(s, src, dst, found), dst) == Visible(s, src)
    decreases |s|
  {
    if s == [] || s == [src] {
    } else if s[0] == src && s[1] == src {
      VisibleTextIsKept(s[2..], src, dst, found);
      assert Swap(s, src, dst, found)[1..] == Swap(s[2..], src, dst, found);
    } else if s[0] == src && !found {
      VisibleTextIsKept(s[1..], src, dst, true);
      MarkerBeforePairs(s[1..], src, dst);
    } else {
      VisibleTextIsKept(s[1..], src, dst, found);
      var rest := Swap(s[1..], src, dst, found);
      if s[0] == dst {
        assert Swap(s, src, dst, found)[2..] == rest;
      } else if s[0] != src {
        assert Swap(s, src, dst, found)[1..] == rest;
      }
    }
  }

  /** Swapping keeps the text of every label exactly when the two markers differ. */
  lemma VisibleTextIsKeptIff(src: char, dst: char)
    ensures (forall s: string :: Visible(Swap(s, src, dst, false), dst) == Visible(s, src)) <==> src != dst
  {
    if src != dst {
      forall s: string ensures Visible(Swap(s, src, dst, false), dst) == Visible(s, src) {
        VisibleTextIsKept(s, src, dst, false);
      }
    } else {
      var s := [src, src];
      assert s[2..] == [];
      assert Swap(s, src, dst, false) == [src];
      assert Visible([src], dst) == Visible([src][1..], dst) == [];
      assert Visible(s, src) == [src] + Visible([], src) == [src];
    }
  }

  // ---------- the marked character ----------

  function Shifted(o: Option<nat>): Option<nat> {
    if o.Some? then Some(o.value + 1) else None
  }

  /** Where in the displayed text the first marked character is. */
  function MarkedAt(s: string, c: char): Option<nat>
    decreases |s|
  {
    if |s| < 2 then None
    else if s[0] != c then Shifted(MarkedAt(s[1..], c))
    else if s[1] == c then Shifted(MarkedAt(s[2..], c))
    else Some(0)
  }

  /** The marked character of `s` is a `dst`, which the output must escape. */
  predicate MarksEscaped(s: string, src: char, dst: char)
    decreases |s|
  {
    |s| >= 2 &&
    if s[0] != src then MarksEscaped(s[1..], src, dst)
    else if s[1] == src then MarksEscaped(s[2..], src, dst)
    else s[1] == dst
  }

  lemma {:induction false} NothingMarkedBehindTheMnemonic(s: string, src: char, dst: char)
    requires src != dst
    ensures MarkedAt(Swap(s, src, dst, true), dst) == None
    decreases |s|
  {
    if s == [] || s == [src] {
    } else if s[0] == src && s[1] == src {
      NothingMarkedBehindTheMnemonic(s[2..], src, dst);
      assert Swap(s, src, dst, true)[1..] == Swap(s[2..], src, dst, true);
    } else {
      NothingMarkedBehindTheMnemonic(s[1..], src, dst);
      var rest := Swap(s[1..], src, dst, true);
      if s[0] == dst {
        assert Swap(s, src, dst, true)[2..] == rest;
      } else if s[0] != src {
        assert Swap(s, src, dst, true)[1..] == rest;
      }
    }
  }

  /** The marked character stays the marked one exactly when it is no `dst`: an escaped `dst` runs
      together with the marker before it, and the mark moves on. */
  lemma {:induction false} MarkIsKeptIff(s: string, src: char, dst: char)
    requires src != dst
    ensures MarkedAt(Swap(s, src, dst, false), dst) == MarkedAt(s, src) <==> !MarksEscaped(s, src, dst)
    decreases |s|
  {
    var out := Swap(s, src, dst, false);
    if |s| < 2 {
      if s != [] && s[0] != src {
        assert s[1..] == [];
        assert out == [dst, dst] || |out| == 1;
        assert out == [dst, dst] ==> out[2..] == [];
      }
    } else if s[0] == src && s[1] == src {
      MarkIsKeptIff(s[2..], src, dst);
      assert out[1..] == Swap(s[2..], src, dst, false);
    } else if s[0] == src {
      var rest := Swap(s[1..], src, dst, true);
      assert out == [dst] + rest && rest != [];
    } else {
      MarkIsKeptIff(s[1..], src, dst);
      var rest := Swap(s[1..], src, dst, false);
      if s[0] == dst {
        assert out[2..] == rest;
      } else {
        assert out[1..] == rest;
      }
    }
  }

  /** The first place in a displayed text that holds another character than `c`. */
  function FirstOther(text: string, c: char): Option<nat> {
    if text == [] then None
    else if text[0] != c then Some(0)
    else Shifted(FirstOther(text[1..], c))
  }

  /** The same from place `at` on. */
  function NextOther(text: string, at: nat, c: char): Option<nat>
    decreases at
  {
    if at == 0 then FirstOther(text, c)
    else if text == [] then None
    else Shifted(NextOther(text[1..], at - 1, c))
  }

  /** A marker before the output behind the mnemonic marks the first displayed character that is no `dst`. */
  lemma {:induction false} MarkerMovesOn(s: string, src: char, dst: char)
    requires src != dst
    ensures MarkedAt([dst] + Swap(s, src, dst, true), dst) == FirstOther(Visible(s, src), dst)
    decreases |s|
  {
    var out := Swap(s, src, dst, true);
    assert ([dst] + out)[1..] == out;
    if s == [] || s == [src] {
    } else if s[0] == src && s[1] == src {
      assert ([dst] + out)[1] == src && Visible(s, src)[0] == src;
    } else if s[0] == src {
      MarkerMovesOn(s[1..], src, dst);
    } else if s[0] == dst {
      MarkerMovesOn(s[1..], src, dst);
      var rest := Swap(s[1..], src, dst, true);
      assert ([dst] + out)[2..] == [dst] + rest;
      assert Visible(s, src)[1..] == Visible(s[1..], src);
    } else {
      assert ([dst] + out)[1] == s[0] && Visible(s, src)[0] == s[0];
    }
  }

  /** Of each label: the output marks the character that is marked in the label, or, where that is a `dst`,
      the next displayed one that is none; and nothing if there is none. */
  lemma {:induction false} MarkMovesOn(s: string, src: char, dst: char)
    requires src != dst
    ensures var mark := MarkedAt(s, src);
            MarkedAt(Swap(s, src, dst, false), dst)
            == if mark.None? then None else NextOther(Visible(s, src), mark.value, dst)
    decreases |s|
  {
    var out := Swap(s, src, dst, false);
    if |s| < 2 {
      if s != [] && s[0] != src {
        assert s[1..] == [];
        assert out == [dst, dst] ==> out[2..] == [];
      }
    } else if s[0] == src && s[1] == src {
      MarkMovesOn(s[2..], src, dst);
      assert out[1..] == Swap(s[2..], src, dst, false) && Visible(s, src)[1..] == Visible(s[2..], src);
      MarkBehind(out, 1, dst);
    } else if s[0] == src {
      MarkerMovesOn(s[1..], src, dst);
    } else {
      MarkMovesOn(s[1..], src, dst);
      var rest := Swap(s[1..], src, dst, false);
      assert Visible(s, src)[1..] == Visible(s[1..], src);
      if s[0] == dst {
        assert out[2..] == rest;
        MarkBehind(out, 2, dst);
      } else {
        assert out[1..] == rest;
        MarkBehind(out, 1, dst);
      }
    }
  }

  /** One displayed character in front shifts the mark. */
  lemma MarkBehind(s: string, n: nat, c: char)
    requires (n == 1 && |s| >= 1 && s[0] != c) || (n == 2 && |s| >= 2 && s[0] == c && s[1] == c)
    ensures MarkedAt(s, c) == Shifted(MarkedAt(s[n..], c))
  {
    if |s| < 2 {
      assert s[n..] == [];
    }
  }

  /** How many characters of the displayed text are marked. */
  function Marks(s: string, c: char): nat
    decreases |s|
  {
    if |s| < 2 then 0
    else if s[0] != c then Marks(s[1..], c)
    else if s[1] == c then Marks(s[2..], c)
    else 1 + Marks(s[1..], c)
  }

  /** Behind the mnemonic nothing is marked, and a marker put before that marks one character at most. */
  lemma {:induction false} MarksBehindTheMnemonic(s: string, src: char, dst: char)
    requires src != dst
    ensures var out := Swap(s, src, dst, true); Marks(out, dst) == 0 && Marks([dst] + out, dst) <= 1
    decreases |s|
  {
    var out := Swap(s, src, dst, true);
    assert ([dst] + out)[1..] == out;
    if s == [] || s == [src] {
    } else if s[0] == src && s[1] == src {
      MarksBehindTheMnemonic(s[2..], src, dst);
      assert out[1..] == Swap(s[2..], src, dst, true);
    } else {
      MarksBehindTheMnemonic(s[1..], src, dst);
      var rest := Swap(s[1..], src, dst, true);
      if s[0] == dst {
        assert out[2..] == rest && ([dst] + out)[2..] == [dst] + rest;
      } else if s[0] != src {
        assert out[1..] == rest;
      }
    }
  }

  /** However many single markers a label holds, at most one character of the output is marked. */
  lemma {:induction false} AtMostOneMark(s: string, src: char, dst: char)
    requires src != dst
    ensures Marks(Swap(s, src, dst, false), dst) <= 1
    decreases |s|
  {
    var out := Swap(s, src, dst, false);
    if s == [] || s == [src] {
    } else if s[0] == src && s[1] == src {
      AtMostOneMark(s[2..], src, dst);
      assert out[1..] == Swap(s[2..], src, dst, false);
    } else if s[0] == src {
      MarksBehindTheMnemonic(s[1..], src, dst);
    } else {
      AtMostOneMark(s[1..], src, dst);
      var rest := Swap(s[1..], src, dst, false);
      if s[0] == dst {
        assert out[2..] == rest;
      } else {
        assert out[1..] == rest;
      }
    }
  }

  // ---------- forth and back ----------

  /** Every single `src` marks a character other than `src` and `dst`, and at most one does. */
  predicate WellFormed(s: string, src: char, dst: char, found: bool)
    decreases |s|
  {
    s == [] ||
    if s[0] != src then WellFormed(s[1..], src, dst, found)
    else
      |s| >= 2 &&
      if s[1] == src then WellFormed(s[2..], src, dst, found)
      else !found && s[1] != dst && WellFormed(s[1..], src, dst, true)
  }

  /** Swapping forth and back gives the label back exactly when it is well formed. */
  lemma {:induction false} RoundTripIff(s: string, src: char, dst: char, found: bool)
    requires src != dst
    ensures Swap(Swap(s, src, dst, found), dst, src, found) == s <==> WellFormed(s, src, dst, found)
    decreases |s|
  {
    var out := Swap(s, src, dst, found);
    if s == [] || s == [src] {
    } else if s[0] == src && s[1] == src {
      RoundTripIff(s[2..], src, dst, found);
      assert out[1..] == Swap(s[2..], src, dst, found);
      assert s == [src, src] + s[2..];
    } else if s[0] == src {
      MarkedRoundTrip(s, src, dst, found);
    } else {
      RoundTripIff(s[1..], src, dst, found);
      var rest := Swap(s[1..], src, dst, found);
      if s[0] == dst {
        assert out[2..] == rest;
      } else {
        assert out[1..] == rest;
      }
      assert s == [s[0]] + s[1..];
    }
  }

  lemma {:induction false} MarkedRoundTrip(s: string, src: char, dst: char, found: bool)
    requires src != dst && |s| >= 2 && s[0] == src && s[1] != src
    ensures Swap(Swap(s, src, dst, found), dst, src, found) == s <==> WellFormed(s, src, dst, found)
    decreases |s|, 0
  {
    var out, rest := Swap(s, src, dst, found), Swap(s[1..], src, dst, true);
    var back := Swap(out, dst, src, found);
    if found || s[1] == dst {
      assert back[0] == s[1];
    } else {
      RoundTripIff(s[1..], src, dst, true);
      assert out == [dst] + rest && out[1..] == rest && rest[0] == s[1];
      assert back == [src] + Swap(rest, dst, src, true);
      assert s == [src] + s[1..];
    }
  }
}
