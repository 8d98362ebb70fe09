/** Putting one text into another at chosen places: by repeated search, and position by position. */
module Splicing {

  /** A search gives the end of the first place it knows in a text, or -1. */
  ghost predicate Searches(first: string -> int) {
    forall t :: first(t) == -1 || 0 < first(t) <= |t|
  }

  /** After each place found, `addition` goes in if what follows `lacks` something. */
  function Spliced(s: string, first: string -> int, lacks: string -> bool, addition: string): string
    requires Searches(first)
    decreases |s|
  {
    var end := first(s);
    if end < 0 then s
    else s[..end] + (if lacks(s[end..]) then addition else "") + Spliced(s[end..], first, lacks, addition)
  }

  /** The text from `i` on, with `addition` put in before every position after `i` that `at` names. */
  function Woven(s: string, i: nat, at: int -> bool, addition: string): string
    requires i <= |s|
    decreases |s| - i
  {
    if i == |s| then ""
    else [s[i]] + (if at(i + 1) then addition else "") + Woven(s, i + 1, at, addition)
  }

  lemma SliceHead(s: string, i: nat, j: nat, rest: string)
    requires i < j <= |s|
    ensures [s[i]] + "" + (s[i + 1..j] + rest) == s[i..j] + rest
  {
    assert s[i..j] == [s[i]] + s[i + 1..j];
  }

  lemma SliceTail(s: string, i: nat, j: nat, x: string, rest: string)
    requires i < j <= |s|
    ensures s[i..j - 1] + ([s[j - 1]] + x + rest) == s[i..j] + x + rest
  {
    assert s[i..j] == s[i..j - 1] + [s[j - 1]];
  }

  lemma {:induction false} WovenPlain(s: string, i: nat, j: nat, at: int -> bool, addition: string)
    requires i <= j <= |s| && forall e :: i < e <= j ==> !at(e)
    ensures Woven(s, i, at, addition) == s[i..j] + Woven(s, j, at, addition)
    decreases j - i
  {
    if i < j {
      WovenPlain(s, i + 1, j, at, addition);
      SliceHead(s, i, j, Woven(s, j, at, addition));
    }
  }

  lemma WovenNext(s: string, i: nat, j: nat, at: int -> bool, addition: string)
    requires i < j <= |s| && forall e :: i < e < j ==> !at(e)
    ensures Woven(s, i, at, addition) == s[i..j] + (if at(j) then addition else "") + Woven(s, j, at, addition)
  {
    WovenPlain(s, i, j - 1, at, addition);
    SliceTail(s, i, j, if at(j) then addition else "", Woven(s, j, at, addition));
  }

  /** Where, in the woven text, the additions begin; `shift` is where position `i` has moved to. */
  function Places(s: string, i: nat, at: int -> bool, width: nat, shift: nat): seq<nat>
    requires i <= |s|
    decreases |s| - i
  {
    if i == |s| then []
    else if at(i + 1) then [shift + 1] + Places(s, i + 1, at, width, shift + 1 + width)
    else Places(s, i + 1, at, width, shift + 1)
  }

  /** A text from `i` on with `width` characters cut out at each of the places. */
  function Erased(t: string, i: nat, places: seq<nat>, width: nat): string
    requires i <= |t|
    decreases |t| - i, |places|
  {
    if places != [] && places[0] == i && i + width <= |t| then Erased(t, i + width, places[1..], width)
    else if i == |t| then ""
    else [t[i]] + Erased(t, i + 1, places, width)
  }

  lemma {:induction false} PlacesLieAhead(s: string, i: nat, at: int -> bool, width: nat, shift: nat)
    requires i <= |s|
    ensures forall k :: 0 <= k < |Places(s, i, at, width, shift)| ==> shift < Places(s, i, at, width, shift)[k]
    decreases |s| - i
  {
    if i < |s| {
      PlacesLieAhead(s, i + 1, at, width, shift + 1 + (if at(i + 1) then width else 0));
    }
  }

  lemma ErasesNothing(t: string, width: nat)
    ensures Erased(t, |t|, [], width) == ""
  {
  }

  /** One character read. */
  lemma ErasesOne(before: string, c: char, rest: string, places: seq<nat>, width: nat)
    requires places == [] || |before| < places[0]
    ensures Erased(before + [c] + rest, |before|, places, width)
            == [c] + Erased(before + [c] + rest, |before| + 1, places, width)
  {
  }

  /** One character read, and the addition behind it cut out. */
  lemma ErasesAddition(before: string, c: char, addition: string, rest: string, places: seq<nat>)
    ensures Erased(before + [c] + addition + rest, |before|, [|before| + 1] + places, |addition|)
            == [c] + Erased(before + [c] + addition + rest, |before| + 1 + |addition|, places, |addition|)
  {
    var t := before + [c] + addition + rest;
    var all := [|before| + 1] + places;
    assert all[1..] == places && t[|before|] == c;
    assert Erased(t, |before| + 1, all, |addition|) == Erased(t, |before| + 1 + |addition|, places, |addition|);
  }

  lemma {:induction false} ErasingUndoesWeaving(before: string, s: string, i: nat, at: int -> bool, addition: string)
    requires i <= |s|
    ensures Erased(before + Woven(s, i, at, addition), |before|, Places(s, i, at, |addition|, |before|), |addition|)
            == s[i..]
    decreases |s| - i
  {
    hide Erased;
    if i == |s| {
      ErasesNothing(before, |addition|);
      assert before + "" == before;
    } else {
      var rest, head := Woven(s, i + 1, at, addition), before + [s[i]];
      FirstOff(s, i);
      JoinRight(before, s[i], if at(i + 1) then addition else "", rest);
      if at(i + 1) {
        ErasesAddition(before, s[i], addition, rest, Places(s, i + 1, at, |addition|, |head + addition|));
        ErasingUndoesWeaving(head + addition, s, i + 1, at, addition);
      } else {
        PlacesLieAhead(s, i + 1, at, |addition|, |head|);
        ErasesOne(before, s[i], rest, Places(s, i + 1, at, |addition|, |head|), |addition|);
        ErasingUndoesWeaving(head, s, i + 1, at, addition);
        assert head + "" == head;
      }
    }
  }

  lemma FirstOff(s: string, i: nat)
    requires i < |s|
    ensures s[i..] == [s[i]] + s[i + 1..]
  {
  }

  lemma JoinRight(before: string, c: char, x: string, rest: string)
    ensures before + ([c] + x + rest) == before + [c] + x + rest
  {
  }

  /** At every place stands the addition. */
  lemma {:induction false} AdditionsStandAtPlaces(before: string, s: string, i: nat, at: int -> bool, addition: string,
                                                  k: nat)
    requires i <= |s| && k < |Places(s, i, at, |addition|, |before|)|
    ensures var t, p := before + Woven(s, i, at, addition), Places(s, i, at, |addition|, |before|)[k];
            p + |addition| <= |t| && t[p..p + |addition|] == addition
    decreases |s| - i
  {
    var added := if at(i + 1) then addition else "";
    var next := before + [s[i]] + added;
    var rest := Woven(s, i + 1, at, addition);
    assert before + Woven(s, i, at, addition) == next + rest;
    if at(i + 1) && k == 0 {
      assert (next + rest)[|before| + 1..|before| + 1 + |addition|] == addition;
    } else {
      AdditionsStandAtPlaces(next, s, i + 1, at, addition, if at(i + 1) then k - 1 else k);
    }
  }

  /** From this place on, the search's next find is the next named position that may need the addition. */
  ghost predicate StepsTo(s: string, from: int, start: int -> bool, first: string -> int, lacks: string -> bool,
                          at: int -> bool)
    requires 0 <= from <= |s|
  {
    var n := first(s[from..]);
    if n == -1 then forall e :: from < e <= |s| ==> !at(e)
    else
      && 0 < n <= |s| - from && start(from + n) && (at(from + n) <==> lacks(s[from + n..]))
      && forall e :: from < e < from + n ==> !at(e)
  }

  ghost predicate Steps(s: string, start: int -> bool, first: string -> int, lacks: string -> bool, at: int -> bool) {
    forall from :: 0 <= from <= |s| && start(from) ==> StepsTo(s, from, start, first, lacks, at)
  }

  lemma {:induction false} SplicedIsWoven(
      s: string, from: nat, start: int -> bool, first: string -> int, lacks: string -> bool, at: int -> bool,
      addition: string)
    requires Searches(first) && Steps(s, start, first, lacks, at) && from <= |s| && start(from)
    ensures Spliced(s[from..], first, lacks, addition) == Woven(s, from, at, addition)
    decreases |s| - from
  {
    assert StepsTo(s, from, start, first, lacks, at);
    var n := first(s[from..]);
    if n == -1 {
      WovenPlain(s, from, |s|, at, addition);
      assert s[from..|s|] + "" == s[from..];
    } else {
      var end := from + n;
      WovenNext(s, from, end, at, addition);
      assert s[from..][..n] == s[from..end] && s[from..][n..] == s[end..];
      SplicedIsWoven(s, end, start, first, lacks, at, addition);
    }
  }
}
