/** The object form of a skills index, and the whole index, read in pieces. */
module StreamObjects {
  import opened Wrappers
  import opened Text
  import opened Json
  import opened StreamRules
  import opened StreamFacts

  // ---- what is returned is right, however the text was cut ----

  lemma ColonIsRight(w: Window)
    requires Valid(w) && PastColon(w).Some?
    ensures var t := Whole(w);
            ColonIn(t, w.position) == Some(PastColon(w).value.position)
  {
    PeekStops(w);
    var at := Peeked(w);
    if !(at.position < |at.buffer| && at.buffer[at.position] == ':') {
      ConsumedCharIsRight(at);
    } else {
      PeekedTokenIsRight(w);
    }
  }

  lemma ConsumedCharIsRight(at: Window)
    requires Valid(at)
    ensures var t, again := Whole(at), Skipped(at);
            var last := if again.position >= |again.buffer| then Skipped(Filled(again)) else again;
            && Whole(last) == t
            && (last.position < |last.buffer| && last.buffer[last.position] == ':' ==>
                  last.position == Spaces(t, at.position) < |t| && t[last.position] == ':')
  {
    var again := Skipped(at);
    SkipStops(at);
    if again.position >= |again.buffer| {
      SkipStops(Filled(again));
    }
    BufferInWhole(if again.position >= |again.buffer| then Skipped(Filled(again)) else again);
  }

  lemma NumberCharDecodes(dec: Decoder, t: string, p: nat)
    requires IsJson(dec)
    requires p < |t| && NumberGoesOn(t[p])
    ensures dec(t, p).Got? ==> dec(t, p).value.Number?
  {
    assert dec(t, p) == Decode(t, p);
  }

  /** Where a number could go on, no member of an object starts. */
  lemma NumberIsNoKey(w: Window)
    requires Valid(w) && w.position < |Whole(w)| && NumberGoesOn(Whole(w)[w.position])
    ensures ObjectEntries(w).None?
  {
    var at := Peeked(w);
    NumberIsPeekedAt(w, at);
    NumberIsNoMemberKey(at);
  }

  lemma NumberIsPeekedAt(w: Window, at: Window)
    requires Valid(w) && w.position < |Whole(w)| && NumberGoesOn(Whole(w)[w.position]) && at == Peeked(w)
    ensures at.position == w.position < |at.buffer| && at.buffer[at.position] != '}'
  {
    PeekStops(w);
    BufferInWhole(at);
  }

  lemma NumberIsNoMemberKey(at: Window)
    requires Valid(at) && at.position < |Whole(at)| && NumberGoesOn(Whole(at)[at.position])
    ensures MemberEntries(at).None?
  {
    DecodeIsRight(at);
    NumberCharDecodes(at.decode, Whole(at), at.position);
    assert Spaces(Whole(at), at.position) == at.position;
  }

  lemma ObjectInFromToken(dec: Decoder, t: string, p: nat, k: nat)
    requires p <= |t| && p <= k <= Spaces(t, p)
    ensures ObjectIn(dec, t, p) == ObjectIn(dec, t, k)
  {
    SpacesOnward(t, p, k);
  }

  lemma {:induction false} ObjectIsRight(w: Window)
    requires Valid(w) && ObjectEntries(w).Some?
    ensures ObjectIn(w.decode, Whole(w), w.position) == ObjectEntries(w)
    decreases |Whole(w)| - w.position, 5
  {
    var at := Peeked(w);
    if at.buffer[at.position] == '}' {
      PeekedTokenIsRight(w);
    } else {
      PeekStops(w);
      MemberIsRight(at);
      if Whole(w)[Spaces(Whole(w), w.position)] == '}' {
        PunctuationIsNoMember(w.decode, Whole(w), Spaces(Whole(w), w.position));
      }
    }
  }

  lemma PunctuationIsNoMember(dec: Decoder, t: string, q: nat)
    requires IsJson(dec)
    requires q < |t| && (t[q] == '}' || t[q] == ',')
    ensures MemberIn(dec, t, q).None?
  {
    PunctuationDoesNotDecode(dec, t, q);
  }

  lemma KeyIsRight(at: Window)
    requires Valid(at) && DecodedValue(at).Some? && DecodedValue(at).value.0.Str?
    ensures var t := Whole(at);
            Spaces(t, at.position) < |t| && at.decode(t, Spaces(t, at.position))
                == Got(DecodedValue(at).value.0, DecodedValue(at).value.1.position)
  {
    DecodeIsRight(at);
  }

  lemma MemberInOf(dec: Decoder, t: string, q: nat, key: Value, k: nat, c: nat)
    requires q <= |t| && dec(t, q) == Got(key, k) && key.Str? && ColonIn(t, k) == Some(c)
    ensures MemberIn(dec, t, q) == ValueIn(dec, key.text, t, c)
  {
  }

  lemma MemberEntriesIs(at: Window, key: Value, after: Window, colon: Window)
    requires Valid(at) && DecodedValue(at) == Some((key, after)) && key.Str? && PastColon(after) == Some(colon)
    ensures MemberEntries(at) == ValueEntries(key.text, colon)
  {
  }

  lemma {:induction false} ValueIsRight(key: string, w: Window)
    requires Valid(w) && ValueEntries(key, w).Some?
    ensures ValueIn(w.decode, key, Whole(w), w.position) == ValueEntries(key, w)
    decreases |Whole(w)| - w.position, 3
  {
    if IsSkillsKey(key) {
      SkillsIsRight(w);
    } else {
      OtherIsRight(w);
    }
  }

  lemma {:induction false} MemberIsRight(at: Window)
    requires Valid(at) && MemberEntries(at).Some?
    ensures Spaces(Whole(at), at.position) < |Whole(at)|
    ensures MemberIn(at.decode, Whole(at), Spaces(Whole(at), at.position)) == MemberEntries(at)
    decreases |Whole(at)| - at.position, 4
  {
    KeyIsRight(at);
    var (key, after) := DecodedValue(at).value;
    var colon := PastColon(after).value;
    ColonIsRight(after);
    MemberEntriesIs(at, key, after, colon);
    ValueIsRight(key.text, colon);
    MemberInOf(at.decode, Whole(at), Spaces(Whole(at), at.position), key, after.position, colon.position);
  }

  lemma {:induction false} OtherIsRight(w: Window)
    requires Valid(w) && OtherEntries(w).Some?
    ensures OtherIn(w.decode, Whole(w), w.position) == OtherEntries(w)
    decreases |Whole(w)| - w.position, 1
  {
    DecodeIsRight(w);
    var (v, end) := DecodedValue(w).value;
    GoesOnIsRight(end);
    if end.position < |Whole(end)| && NumberGoesOn(Whole(end)[end.position]) {
      NumberIsNoMember(end);
    }
  }

  lemma SkillsEntriesIs(w: Window, at: Window)
    requires Valid(w) && at == Peeked(w) && at.position < |at.buffer|
    ensures SkillsEntries(w) == if at.buffer[at.position] == '[' then SkillsArray(Past(at)) else SkillsValue(at)
  {
  }

  lemma {:induction false} SkillsIsRight(w: Window)
    requires Valid(w) && SkillsEntries(w).Some?
    ensures SkillsIn(w.decode, Whole(w), w.position) == SkillsEntries(w)
    decreases |Whole(w)| - w.position, 2
  {
    var at := Peeked(w);
    PeekStops(w);
    SkillsEntriesIs(w, at);
    if at.buffer[at.position] == '[' {
      PeekedTokenIsRight(w);
      SkillsInBrackets(w, Past(at));
    } else {
      SkillsElsewhere(w, at);
    }
  }

  lemma {:induction false} SkillsInBrackets(w: Window, next: Window)
    requires Valid(w) && Onward(w, next) && SkillsArray(next).Some?
    requires Spaces(Whole(w), w.position) < |Whole(w)| && Whole(w)[Spaces(Whole(w), w.position)] == '['
    requires next.position == Spaces(Whole(w), w.position) + 1
    ensures SkillsIn(w.decode, Whole(w), w.position) == SkillsArray(next)
    decreases |Whole(w)| - w.position, 1
  {
    SkillsInBracketIs(w.decode, Whole(w), w.position);
    SkillsArrayIsRightFrom(next, w.decode, Whole(w), next.position);
  }

  lemma {:induction false} SkillsArrayIsRightFrom(w: Window, dec: Decoder, t: string, p: nat)
    requires Valid(w) && w.decode == dec && Whole(w) == t && w.position == p && SkillsArray(w).Some?
    ensures SkillsArrayIn(dec, t, p) == SkillsArray(w)
    decreases |t| - p, 2
  {
    SkillsArrayIsRight(w);
  }

  lemma SkillsInBracketIs(dec: Decoder, t: string, p: nat)
    requires p <= |t| && Spaces(t, p) < |t| && t[Spaces(t, p)] == '['
    ensures SkillsIn(dec, t, p) == SkillsArrayIn(dec, t, Spaces(t, p) + 1)
  {
  }

  lemma {:induction false} SkillsElsewhere(w: Window, at: Window)
    requires Valid(w) && Onward(w, at) && SkillsValue(at).Some? && at.position <= Spaces(Whole(w), w.position)
    ensures SkillsIn(w.decode, Whole(w), w.position) == SkillsValue(at)
    decreases |Whole(w)| - w.position, 1
  {
    SkillsValueIsRight(at);
    SkillsInFromToken(w.decode, Whole(w), w.position, at.position);
  }

  lemma {:induction false} SkillsArrayIsRight(w: Window)
    requires Valid(w) && SkillsArray(w).Some?
    ensures SkillsArrayIn(w.decode, Whole(w), w.position) == SkillsArray(w)
    decreases |Whole(w)| - w.position, 1
  {
    ArrayIsRight(w);
    GoesOnIsRight(ArrayEntries(w).value.1);
  }

  lemma SkillsInFromToken(dec: Decoder, t: string, p: nat, k: nat)
    requires p <= |t| && p <= k <= Spaces(t, p)
    ensures SkillsIn(dec, t, p) == SkillsIn(dec, t, k)
  {
    SpacesOnward(t, p, k);
  }

  /** Behind an item that ends at `e` come a comma and the rest of the items, or the end. */
  predicate ItemsRest(t: string, e: nat, rest: seq<Value>, end: nat)
    requires e <= |t|
  {
    var z := Blanks(t, e) + 1;
    && z <= |t|
    && if rest == [] then t[z - 1] == ']' && end == z
       else t[z - 1] == ',' && DecodeItems(t, Blanks(t, z)) == Got(Arr(rest), end)
  }

  lemma ItemsUnfold(t: string, p: nat, first: Value, e: nat)
    requires p <= |t| && DecodeItems(t, p).Got? && Decode(t, p) == Got(first, e)
    ensures After(t, e, ']').Some? ==> DecodeItems(t, p) == Got(Arr([first]), After(t, e, ']').value)
    ensures After(t, e, ']').None? ==>
              && After(t, e, ',').Some?
              && var next := DecodeItems(t, Blanks(t, After(t, e, ',').value));
                 next.Got? && DecodeItems(t, p) == Got(Arr([first] + next.value.items), next.end)
  {
  }

  lemma ItemsStart(t: string, p: nat)
    requires p <= |t| && DecodeItems(t, p).Got?
    ensures Decode(t, p).Got?
  {
  }

  lemma SplitItems(t: string, p: nat) returns (first: Value, e: nat)
    requires p <= |t| && DecodeItems(t, p).Got?
    ensures Decode(t, p) == Got(first, e)
    ensures var items := DecodeItems(t, p).value.items;
            items != [] && items[0] == first && ItemsRest(t, e, items[1..], DecodeItems(t, p).end)
  {
    ItemsStart(t, p);
    first, e := Decode(t, p).value, Decode(t, p).end;
    ItemsUnfold(t, p, first, e);
    if After(t, e, ']').None? {
      var next := Blanks(t, After(t, e, ',').value);
      SomeItems(t, next);
      assert ([first] + DecodeItems(t, next).value.items)[1..] == DecodeItems(t, next).value.items;
    }
  }

  lemma SomeItems(t: string, p: nat)
    requires p <= |t| && DecodeItems(t, p).Got?
    ensures DecodeItems(t, p).value.items != []
  {
  }

  lemma AllObjectsOfParts(items: seq<Value>)
    requires items != []
    ensures AllObjects(items) <==> items[0].Obj? && AllObjects(items[1..])
  {
    assert forall i | 1 <= i < |items| :: items[i] == items[1..][i - 1];
  }

  /** A JSON array of objects reads as the same entries. */
  lemma {:induction false} ItemsAreEntries(dec: Decoder, t: string, p: nat)
    requires IsJson(dec)
    requires p <= |t| && DecodeItems(t, p).Got? && AllObjects(DecodeItems(t, p).value.items)
    ensures ArrayIn(dec, t, p) == Some((DecodeItems(t, p).value.items, DecodeItems(t, p).end))
    decreases |t| - p, 1
  {
    var first, e := SplitItems(t, p);
    var items, end := DecodeItems(t, p).value.items, DecodeItems(t, p).end;
    AllObjectsOfParts(items);
    RestAreEntries(dec, t, e, items[1..], end);
    ItemAndRest(dec, t, p, items, e, end);
  }

  lemma ItemAndRest(dec: Decoder, t: string, p: nat, items: seq<Value>, e: nat, end: nat)
    requires IsJson(dec) && p <= |t| && items != [] && items[0].Obj? && Decode(t, p) == Got(items[0], e)
    requires ArrayIn(dec, t, e) == Some((items[1..], end))
    ensures ArrayIn(dec, t, p) == Some((items, end))
  {
    assert dec(t, p) == Decode(t, p);
    ObjectStartsWithBrace(dec, t, p);
    ArrayInAfterEntry(dec, t, p, items[0], e);
    assert items == [items[0]] + items[1..];
  }

  lemma {:induction false} RestAreEntries(dec: Decoder, t: string, e: nat, rest: seq<Value>, end: nat)
    requires IsJson(dec) && e <= |t| && AllObjects(rest) && ItemsRest(t, e, rest, end)
    ensures ArrayIn(dec, t, e) == Some((rest, end))
    decreases |t| - e, 0
  {
    if rest == [] {
      ArrayInAtBracket(dec, t, e);
    } else {
      MoreItemsAreEntries(dec, t, e, Blanks(t, Blanks(t, e) + 1), rest, end);
    }
  }

  lemma {:induction false} MoreItemsAreEntries(dec: Decoder, t: string, e: nat, p: nat, rest: seq<Value>, end: nat)
    requires IsJson(dec) && e <= |t| && Blanks(t, e) < |t| && t[Blanks(t, e)] == ',' && p == Blanks(t, Blanks(t, e) + 1)
    requires DecodeItems(t, p) == Got(Arr(rest), end) && AllObjects(rest)
    ensures ArrayIn(dec, t, e) == Some((rest, end))
    decreases |t| - p, 2
  {
    ItemsAreEntries(dec, t, p);
    ArrayInAfterComma(dec, t, e, p, Some((rest, end)));
  }

  lemma ArrayInAtBracket(dec: Decoder, t: string, e: nat)
    requires e <= |t| && Blanks(t, e) < |t| && t[Blanks(t, e)] == ']'
    ensures ArrayIn(dec, t, e) == Some(([], Blanks(t, e) + 1))
  {
    BlanksAreSpaces(t, e);
    ArrayInAtSeparator(dec, t, e);
  }

  /** What is taken behind a comma is what is taken from the next item on. */
  lemma ArrayInAfterComma(dec: Decoder, t: string, e: nat, p: nat, taken: Option<(Entries, nat)>)
    requires e <= |t| && Blanks(t, e) < |t| && t[Blanks(t, e)] == ','
    requires p == Blanks(t, Blanks(t, e) + 1) && ArrayIn(dec, t, p) == taken
    ensures ArrayIn(dec, t, e) == taken
  {
    BlanksAreSpaces(t, e);
    ArrayInAtSeparator(dec, t, e);
    BlanksAreSpaces(t, Blanks(t, e) + 1);
    ArrayInFromToken(dec, t, Blanks(t, e) + 1, p);
  }

  lemma ArrayInFromToken(dec: Decoder, t: string, p: nat, k: nat)
    requires p <= |t| && p <= k <= Spaces(t, p)
    ensures ArrayIn(dec, t, p) == ArrayIn(dec, t, k)
  {
    SpacesOnward(t, p, k);
  }

  /** JSON white space is white space; only the converse fails. */
  lemma BlanksAreSpaces(t: string, p: nat)
    requires p <= |t|
    ensures Blanks(t, p) <= Spaces(t, p)
    ensures Blanks(t, p) < |t| && !IsSpace(t[Blanks(t, p)]) ==> Spaces(t, p) == Blanks(t, p)
  {
  }

  lemma ArrayIsEntries(dec: Decoder, t: string, q: nat)
    requires IsJson(dec)
    requires q < |t| && t[q] == '[' && dec(t, q).Got? && dec(t, q).value.Arr? && AllObjects(dec(t, q).value.items)
    ensures ArrayIn(dec, t, q + 1) == Some((dec(t, q).value.items, dec(t, q).end))
  {
    assert dec(t, q) == Decode(t, q);
    BlanksAreSpaces(t, q + 1);
    if After(t, q + 1, ']').None? {
      ItemsAreEntries(dec, t, Blanks(t, q + 1));
      ArrayInFromToken(dec, t, q + 1, Blanks(t, q + 1));
    }
  }

  lemma {:induction false} SkillsValueIsRight(at: Window)
    requires Valid(at) && SkillsValue(at).Some?
    ensures Spaces(Whole(at), at.position) < |Whole(at)|
    ensures SkillsIn(at.decode, Whole(at), at.position) == SkillsValue(at)
    decreases |Whole(at)| - at.position, 0
  {
    var t := Whole(at);
    SkillsValueDecodes(at);
    var (v, end) := DecodedValue(at).value;
    ObjectIsRight(end);
    SkillsInByValue(at.decode, t, at.position, v, end.position);
  }

  lemma SkillsValueDecodes(at: Window)
    requires Valid(at) && SkillsValue(at).Some?
    ensures var t := Whole(at);
            var (v, end) := DecodedValue(at).value;
            && Spaces(t, at.position) < |t| && at.decode(t, Spaces(t, at.position)) == Got(v, end.position)
  {
    DecodeIsRight(at);
    var (v, end) := DecodedValue(at).value;
    if end.position < |Whole(at)| && NumberGoesOn(Whole(at)[end.position]) {
      NumberIsNoKey(end);
    }
  }

  /** Whether the whole value is decoded or its items are read one by one makes no difference as
      long as no comma follows. */
  lemma SkillsInByValue(dec: Decoder, t: string, p: nat, v: Value, e: nat)
    requires IsJson(dec)
    requires p <= |t| && Spaces(t, p) < |t| && dec(t, Spaces(t, p)) == Got(v, e) && ObjectIn(dec, t, e).Some?
    requires v.Arr? ==> AllObjects(v.items)
    ensures SkillsIn(dec, t, p) == Some((if v.Arr? then v.items else []) + ObjectIn(dec, t, e).value)
  {
    var q := Spaces(t, p);
    ObjectStartsWithBrace(dec, t, q);
    if v.Arr? {
      ArrayIsEntries(dec, t, q);
      GoesOnAsObject(dec, t, e);
      assert SkillsIn(dec, t, p) == SkillsArrayIn(dec, t, q + 1);
    } else {
      assert SkillsIn(dec, t, p) == SkillsValueIn(dec, t, q);
      assert [] + ObjectIn(dec, t, e).value == ObjectIn(dec, t, e).value;
    }
  }

  lemma GoesOnAsObject(dec: Decoder, t: string, p: nat)
    requires IsJson(dec)
    requires p <= |t| && ObjectIn(dec, t, p).Some?
    ensures GoesOnIn(dec, t, p) == ObjectIn(dec, t, p)
  {
    if t[Spaces(t, p)] == ',' {
      PunctuationIsNoMember(dec, t, Spaces(t, p));
    }
  }

  lemma GoesOnInIs(dec: Decoder, t: string, p: nat)
    requires p <= |t| && Spaces(t, p) < |t|
    ensures t[Spaces(t, p)] == ',' ==> GoesOnIn(dec, t, p) == ObjectIn(dec, t, Spaces(t, p) + 1)
    ensures t[Spaces(t, p)] == '}' ==> GoesOnIn(dec, t, p) == Some([])
  {
  }

  lemma MembersGoOnIs(w: Window, at: Window)
    requires Valid(w) && at == Peeked(w)
    ensures MembersGoOn(w) == if at.position == |at.buffer| then ObjectEntries(at)
                              else if at.buffer[at.position] == ',' then ObjectEntries(Past(at))
                              else if at.buffer[at.position] == '}' then Some([])
                              else ObjectEntries(at)
  {
  }

  lemma NumberIsNoMember(w: Window)
    requires Valid(w) && w.position < |Whole(w)| && NumberGoesOn(Whole(w)[w.position])
    ensures MembersGoOn(w).None?
  {
    var at := Peeked(w);
    PeekStops(w);
    BufferInWhole(at);
    NumberIsNoKey(at);
    MembersGoOnIs(w, at);
  }

  lemma {:induction false} GoesOnAtComma(w: Window, next: Window)
    requires Valid(w) && Onward(w, next) && ObjectEntries(next).Some?
    requires Spaces(Whole(w), w.position) < |Whole(w)| && Whole(w)[Spaces(Whole(w), w.position)] == ','
    requires next.position == Spaces(Whole(w), w.position) + 1
    ensures GoesOnIn(w.decode, Whole(w), w.position) == ObjectEntries(next)
    decreases |Whole(w)| - w.position, 6
  {
    GoesOnInIs(w.decode, Whole(w), w.position);
    ObjectIsRightFrom(next, w.decode, Whole(w), next.position);
  }

  lemma {:induction false} ObjectIsRightFrom(w: Window, dec: Decoder, t: string, p: nat)
    requires Valid(w) && w.decode == dec && Whole(w) == t && w.position == p && ObjectEntries(w).Some?
    ensures ObjectIn(dec, t, p) == ObjectEntries(w)
    decreases |t| - p, 6
  {
    ObjectIsRight(w);
  }

  lemma {:induction false} GoesOnElsewhere(w: Window, at: Window)
    requires Valid(w) && Onward(w, at) && ObjectEntries(at).Some? && at.position <= Spaces(Whole(w), w.position)
    ensures GoesOnIn(w.decode, Whole(w), w.position) == ObjectEntries(at)
    decreases |Whole(w)| - w.position, 6
  {
    ObjectIsRight(at);
    ObjectInFromToken(w.decode, Whole(w), w.position, at.position);
    GoesOnAsObject(w.decode, Whole(w), w.position);
  }

  lemma {:induction false} GoesOnIsRight(w: Window)
    requires Valid(w) && MembersGoOn(w).Some?
    ensures GoesOnIn(w.decode, Whole(w), w.position) == MembersGoOn(w)
    decreases |Whole(w)| - w.position, 7
  {
    var at := Peeked(w);
    PeekStops(w);
    MembersGoOnIs(w, at);
    if at.position == |at.buffer| || (at.buffer[at.position] != ',' && at.buffer[at.position] != '}') {
      GoesOnElsewhere(w, at);
    } else {
      PeekedTokenIsRight(w);
      if at.buffer[at.position] == ',' {
        GoesOnAtComma(w, Past(at));
      } else {
        GoesOnInIs(w.decode, Whole(w), w.position);
      }
    }
  }
}
