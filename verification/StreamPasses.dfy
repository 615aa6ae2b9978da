/** For any cuts at all: which of the indexes that are right the reader gets through. */
module StreamPasses {
  import opened Wrappers
  import opened Text
  import opened Json
  import opened StreamRules
  import opened StreamFacts
  import opened StreamObjects
  import opened StreamMeaning
  import opened StreamCuts

  /** The window stands at `p` in the text, after the reads `c`. */
  ghost predicate On(w: Window, dec: Decoder, t: string, p: nat, c: Cuts) {
    Valid(w) && w.decode == dec && Whole(w) == t && w.position == p <= |t| && CutsOf(w) == c
  }

  /** What a peek from `w` shows: the next token `q`, or white space before it. */
  ghost predicate Peeks(w: Window, at: Window, dec: Decoder, t: string, p: nat, c: Cuts, q: nat) {
    && On(w, dec, t, p, c) && q == Spaces(t, p) < |t| && at == Peeked(w)
    && On(at, dec, t, at.position, AtPeek(c, q)) && p <= at.position <= q == Spaces(t, at.position)
    && at.position < |at.buffer| && at.buffer[at.position] == t[at.position]
    && (Shown(c, q) <==> at.position == q) && (at.position < q ==> IsSpace(t[at.position]))
  }

  lemma Peek(w: Window, dec: Decoder, t: string, p: nat, c: Cuts) returns (q: nat, at: Window)
    requires On(w, dec, t, p, c) && Spaces(t, p) < |t|
    ensures Peeks(w, at, dec, t, p, c, q)
  {
    q, at := Spaces(t, p), Peeked(w);
    PeekReads(w, at);
  }

  lemma PastOn(at: Window, dec: Decoder, t: string, p: nat, c: Cuts)
    requires On(at, dec, t, p, c) && p < |at.buffer|
    ensures On(Past(at), dec, t, p + 1, c)
  {
  }

  // ---- arrays ----

  /** The array that begins in `w` is read exactly if there are reads `c`, and with just these. */
  ghost predicate ReadsArray(w: Window, c: Option<Cuts>)
    requires Valid(w)
  {
    (ArrayEntries(w).Some? <==> c.Some?) && (c.Some? ==> CutsOf(ArrayEntries(w).value.1) == c.value)
  }

  /** An array is read exactly if its separators are shown. */
  lemma {:induction false} ArrayReads(w: Window, dec: Decoder, t: string, p: nat, c: Cuts)
    requires On(w, dec, t, p, c) && ArrayIn(dec, t, p).Some?
    ensures ReadsArray(w, ArrayCuts(dec, t, p, c))
    decreases |t| - p, 2
  {
    ArrayHasToken(dec, t, p);
    if t[Spaces(t, p)] == ']' {
      EndReads(w, dec, t, p, c);
    } else if t[Spaces(t, p)] == ',' {
      AtCommaReads(w, dec, t, p, c);
    } else {
      EntryReads(w, dec, t, p, c, Spaces(t, p));
    }
  }

  lemma {:induction false} AtCommaReads(w: Window, dec: Decoder, t: string, p: nat, c: Cuts)
    requires On(w, dec, t, p, c) && Spaces(t, p) < |t| && t[Spaces(t, p)] == ','
    requires ArrayIn(dec, t, Spaces(t, p) + 1).Some?
    ensures ReadsArray(w, ArrayCuts(dec, t, p, c))
    decreases |t| - p, 1
  {
    var q, at := Peek(w, dec, t, p, c);
    if at.position < q {
      SeparatorMissed(w, at, dec, t, p, c, q);
    } else {
      var next := AfterComma(w, at, dec, t, p, c, q);
      CommaReads(w, next, dec, t, p, c, q);
    }
  }

  lemma ArrayHasToken(dec: Decoder, t: string, p: nat)
    requires p <= |t| && ArrayIn(dec, t, p).Some?
    ensures Spaces(t, p) < |t|
    ensures t[Spaces(t, p)] == ',' ==> ArrayIn(dec, t, Spaces(t, p) + 1).Some?
  {
  }

  /** A separator that is not shown does not decode. */
  lemma SeparatorMissed(w: Window, at: Window, dec: Decoder, t: string, p: nat, c: Cuts, q: nat)
    requires Peeks(w, at, dec, t, p, c, q) && at.position < q && (t[q] == ',' || t[q] == ']')
    ensures ReadsArray(w, ArrayCuts(dec, t, p, c))
  {
    ArrayAfterEntry(w, at);
    DecodeAtSeparator(at);
    NotAnEntry(at);
  }

  lemma NotAnEntry(at: Window)
    requires Valid(at) && (DecodedValue(at).None? || !DecodedValue(at).value.0.Obj?)
    ensures EntryAndMore(at).None?
  {
  }

  lemma EndReads(w: Window, dec: Decoder, t: string, p: nat, c: Cuts)
    requires On(w, dec, t, p, c) && Spaces(t, p) < |t| && t[Spaces(t, p)] == ']'
    ensures ReadsArray(w, ArrayCuts(dec, t, p, c))
  {
    var q, at := Peek(w, dec, t, p, c);
    if at.position < q {
      SeparatorMissed(w, at, dec, t, p, c, q);
    } else {
      ArrayAtEnd(w);
    }
  }

  lemma {:induction false} CommaReads(w: Window, next: Window, dec: Decoder, t: string, p: nat, c: Cuts, q: nat)
    requires Valid(w) && On(next, dec, t, q + 1, AtPeek(c, q)) && ArrayEntries(w) == ArrayEntries(next)
    requires p <= |t| && q == Spaces(t, p) < |t| && t[q] == ',' && Shown(c, q) && ArrayIn(dec, t, q + 1).Some?
    ensures ReadsArray(w, ArrayCuts(dec, t, p, c))
    decreases |t| - p, 0
  {
    CutsAfterComma(dec, t, p, c);
    ArrayReads(next, dec, t, q + 1, AtPeek(c, q));
  }

  lemma AfterComma(w: Window, at: Window, dec: Decoder, t: string, p: nat, c: Cuts, q: nat) returns (next: Window)
    requires Peeks(w, at, dec, t, p, c, q) && at.position == q && t[q] == ','
    ensures On(next, dec, t, q + 1, AtPeek(c, q)) && ArrayEntries(w) == ArrayEntries(next)
  {
    ArrayAfterComma(w);
    PastOn(at, dec, t, q, AtPeek(c, q));
    next := Past(at);
  }

  lemma CutsAfterComma(dec: Decoder, t: string, p: nat, c: Cuts)
    requires p <= |t| && Spaces(t, p) < |t| && t[Spaces(t, p)] == ',' && Shown(c, Spaces(t, p))
    ensures ArrayCuts(dec, t, p, c) == ArrayCuts(dec, t, Spaces(t, p) + 1, AtPeek(c, Spaces(t, p)))
  {
  }

  lemma CutsAfterEntry(dec: Decoder, t: string, p: nat, c: Cuts)
    requires p <= |t| && Spaces(t, p) < |t| && t[Spaces(t, p)] != ',' && t[Spaces(t, p)] != ']'
    requires dec(t, Spaces(t, p)).Got?
    ensures var q := Spaces(t, p);
            ArrayCuts(dec, t, p, c) == ArrayCuts(dec, t, dec(t, q).end, ForValue(dec, t, AtPeek(c, q), q))
  {
  }

  lemma {:induction false} EntryReads(w: Window, dec: Decoder, t: string, p: nat, c: Cuts, q: nat)
    requires On(w, dec, t, p, c) && q == Spaces(t, p) < |t| && ArrayIn(dec, t, p).Some? && t[q] != ',' && t[q] != ']'
    ensures ReadsArray(w, ArrayCuts(dec, t, p, c))
    decreases |t| - p, 0
  {
    ArrayInEntry(dec, t, p);
    var after := EntryTaken(w, dec, t, p, c, q);
    CutsAfterEntry(dec, t, p, c);
    ArrayReads(after, dec, t, dec(t, q).end, ForValue(dec, t, AtPeek(c, q), q));
  }

  /** An entry is decoded however much white space the peek has left. */
  lemma EntryTaken(w: Window, dec: Decoder, t: string, p: nat, c: Cuts, q: nat) returns (after: Window)
    requires On(w, dec, t, p, c) && q == Spaces(t, p) < |t| && dec(t, q).Got? && dec(t, q).value.Obj?
    ensures On(after, dec, t, dec(t, q).end, ForValue(dec, t, AtPeek(c, q), q))
    ensures ArrayEntries(after).None? ==> ArrayEntries(w).None?
    ensures ArrayEntries(after).Some? ==>
              ArrayEntries(w).Some? && ArrayEntries(w).value.1 == ArrayEntries(after).value.1
  {
    EntryIsSeen(w);
    var q', at := Peek(w, dec, t, p, c);
    ValueReads(at);
    after := DecodedValue(at).value.1;
    WholeOrCut(at);
    ArrayAfterEntry(w, at);
  }

  // ---- decoding ----

  lemma StringStartsWithQuote(dec: Decoder, s: string, p: nat)
    requires IsJson(dec) && p <= |s| && dec(s, p).Got?
    ensures dec(s, p).value.Str? <==> s[p] == '"'
  {
    assert dec(s, p) == Decode(s, p);
  }

  lemma FrontShows(t: string, q: nat, g: nat, dec: Decoder)
    requires q < |t| && dec(Front(t, g), q).Got?
    ensures q < |Front(t, g)| && Front(t, g)[q] == t[q]
  {
  }

  /** A number that is cut short makes the object form fail: the rest of it stands where a comma,
      a brace or a key should be. */
  lemma CutNumberGivesUp(w: Window)
    requires Valid(w) && DecodedValue(w).Some? && DecodedValue(w).value.0.Number?
    requires var r := DecodedValue(w).value.1; r.position < |Whole(w)| && NumberGoesOn(Whole(w)[r.position])
    ensures OtherEntries(w).None? && SkillsValue(w).None?
  {
    var r := DecodedValue(w).value.1;
    NumberIsNoMember(r);
    NumberIsNoKey(r);
  }

  /** A value is decoded, and as the one that stands there or as a number cut short. */
  lemma ValueTaken(w: Window, dec: Decoder, t: string, p: nat, c: Cuts, q: nat) returns (value: Value, r: Window)
    requires On(w, dec, t, p, c) && q == Spaces(t, p) < |t| && dec(t, q).Got?
    ensures p < r.position && On(r, dec, t, r.position, ForValue(dec, t, c, q)) && DecodedValue(w) == Some((value, r))
    ensures WholeValue(dec, t, q, ForValue(dec, t, c, q)) <==> dec(t, q) == Got(value, r.position)
    ensures !WholeValue(dec, t, q, ForValue(dec, t, c, q)) ==> OtherEntries(w).None? && SkillsValue(w).None?
  {
    ValueReads(w);
    WholeOrCut(w);
    value, r := DecodedValue(w).value.0, DecodedValue(w).value.1;
    if !WholeValue(dec, t, q, CutsOf(r)) {
      CutNumberGivesUp(w);
    }
  }

  /** A key is a string, so it is never cut short. */
  lemma KeyTaken(at: Window, dec: Decoder, t: string, p: nat, c: Cuts, q: nat) returns (key: Value, after: Window)
    requires On(at, dec, t, p, c) && q == Spaces(t, p) < |t| && dec(t, q).Got? && dec(t, q).value.Str?
    ensures DecodedValue(at) == Some((key, after)) && dec(t, q) == Got(key, after.position)
    ensures p < after.position && On(after, dec, t, after.position, ForValue(dec, t, c, q))
  {
    ValueReads(at);
    WholeOrCut(at);
    key, after := DecodedValue(at).value.0, DecodedValue(at).value.1;
    var front := Front(t, ForValue(dec, t, c, q).end);
    FrontShows(t, q, ForValue(dec, t, c, q).end, dec);
    StringStartsWithQuote(dec, t, q);
    StringStartsWithQuote(dec, front, q);
  }

  /** Where a comma or a closing brace stands, no key is decoded. */
  lemma NoKeyThere(at: Window, dec: Decoder, t: string, p: nat, c: Cuts, q: nat)
    requires On(at, dec, t, p, c) && q == Spaces(t, p) < |t| && (t[q] == '}' || t[q] == ',')
    ensures MemberEntries(at).None?
  {
    ValueReads(at);
    if DecodedValue(at).Some? {
      FrontShows(t, q, ForValue(dec, t, c, q).end, dec);
      PunctuationDoesNotDecode(dec, Front(t, ForValue(dec, t, c, q).end), q);
    }
  }

  // ---- colons ----

  lemma EndsGrow(c: Cuts)
    ensures c.end <= Once(c).end <= Once(Once(c)).end
  {
  }

  /** The third skip for a colon, made when the peek has stopped on white space. */
  lemma ColonLater(at: Window, q: nat)
    requires Valid(at) && at.position < q == Spaces(Whole(at), at.position) < |Whole(at)| && Whole(at)[q] == ':'
    requires at.position < |at.buffer|
    ensures var again := Skipped(at);
            && Onward(at, again) && again.position < |again.buffer|
            && (again.buffer[again.position] == ':' <==> q <= |at.buffer|)
            && (q <= |at.buffer| ==> again.position == q && CutsOf(again) == Upto(CutsOf(at), q))
  {
    SkipReads(at, q);
    UptoSteps(CutsOf(at), q);
    BufferInWhole(Skipped(at));
  }

  lemma PastColonIs(w: Window, at: Window)
    requires Valid(w) && at == Peeked(w) && at.position < |at.buffer|
    ensures at.buffer[at.position] == ':' ==> PastColon(w) == Some(Past(at))
    ensures var again := Skipped(at);
            at.buffer[at.position] != ':' && again.position < |again.buffer| ==>
              PastColon(w) == if again.buffer[again.position] == ':' then Some(Past(again)) else None
  {
  }

  /** A colon is found exactly if it is shown to the three skips that look for it. */
  lemma ColonReads(w: Window, dec: Decoder, t: string, p: nat, c: Cuts, q: nat)
    requires On(w, dec, t, p, c) && ColonIn(t, p) == Some(q + 1)
    ensures PastColon(w).Some? <==> ColonShown(c, q)
    ensures PastColon(w).Some? ==> On(PastColon(w).value, dec, t, q + 1, Upto(c, q))
  {
    var q', at := Peek(w, dec, t, p, c);
    PastColonIs(w, at);
    UptoSteps(c, q);
    EndsGrow(c);
    if at.position == q {
      PastOn(at, dec, t, q, AtPeek(c, q));
    } else {
      ColonLater(at, q);
    }
  }

  // ---- parts of an object that is right ----

  lemma ObjectHasToken(dec: Decoder, t: string, p: nat)
    requires p <= |t| && ObjectIn(dec, t, p).Some?
    ensures Spaces(t, p) < |t| && (t[Spaces(t, p)] != '}' ==> MemberIn(dec, t, Spaces(t, p)).Some?)
  {
  }

  lemma MemberInParts(dec: Decoder, t: string, q: nat)
    requires q <= |t| && MemberIn(dec, t, q).Some?
    ensures var d := dec(t, q);
            && d.Got? && d.value.Str? && ColonIn(t, d.end).Some?
            && ValueIn(dec, d.value.text, t, ColonIn(t, d.end).value).Some?
  {
  }

  lemma OtherInParts(dec: Decoder, t: string, p: nat)
    requires p <= |t| && OtherIn(dec, t, p).Some?
    ensures var d := dec(t, Spaces(t, p)); d.Got? && GoesOnIn(dec, t, d.end).Some?
  {
  }

  /** An array that is read item by item consists of objects if it is read as a whole. */
  lemma SkillsInParts(dec: Decoder, t: string, p: nat)
    requires IsJson(dec) && p <= |t| && SkillsIn(dec, t, p).Some?
    ensures var v := Spaces(t, p);
            && v < |t|
            && (t[v] == '[' ==> SkillsArrayIn(dec, t, v + 1).Some?)
            && (dec(t, v).Got? && dec(t, v).value.Arr? ==> AllObjects(dec(t, v).value.items))
  {
    var v := Spaces(t, p);
    if dec(t, v).Got? {
      ObjectStartsWithBrace(dec, t, v);
    }
    if dec(t, v).Got? && t[v] == '[' {
      ListMeans(dec, t, v);
      assert SkillsIn(dec, t, p) == SkillsArrayIn(dec, t, v + 1);
    }
  }

  lemma GoesOnInParts(dec: Decoder, t: string, p: nat)
    requires IsJson(dec) && p <= |t| && GoesOnIn(dec, t, p).Some?
    ensures var q := Spaces(t, p);
            q < |t| && if t[q] == ',' then ObjectIn(dec, t, q + 1).Some? else ObjectIn(dec, t, q).Some?
  {
    ObjectInFromToken(dec, t, p, Spaces(t, p));
  }

  // ---- an object is read exactly if it passes ----

  lemma {:induction false} ObjectReadIff(w: Window, dec: Decoder, t: string, p: nat, c: Cuts)
    requires On(w, dec, t, p, c) && ObjectIn(dec, t, p).Some?
    ensures ObjectEntries(w).Some? <==> ObjectPasses(dec, t, p, c)
    decreases |t| - p, 6
  {
    ObjectHasToken(dec, t, p);
    var q, at := Peek(w, dec, t, p, c);
    ObjectEntriesIs(w, at);
    if t[q] != '}' {
      MemberReadIff(at, dec, t, at.position, AtPeek(c, q), q);
    } else if at.position < q {
      NoKeyThere(at, dec, t, at.position, AtPeek(c, q), q);
    }
  }

  lemma ObjectEntriesIs(w: Window, at: Window)
    requires Valid(w) && at == Peeked(w) && at.position < |at.buffer|
    ensures ObjectEntries(w) == if at.buffer[at.position] == '}' then Some([]) else MemberEntries(at)
  {
  }

  lemma {:induction false} MemberReadIff(at: Window, dec: Decoder, t: string, p: nat, c: Cuts, q: nat)
    requires On(at, dec, t, p, c) && q == Spaces(t, p) < |t| && MemberIn(dec, t, q).Some?
    ensures MemberEntries(at).Some? <==> MemberPasses(dec, t, q, c)
    decreases |t| - p, 5
  {
    MemberInParts(dec, t, q);
    var k := dec(t, q).end;
    MemberPartsReadIff(at, dec, t, p, c, q, dec(t, q).value.text, k, ColonIn(t, k).value);
  }

  lemma {:induction false} MemberPartsReadIff(at: Window, dec: Decoder, t: string, p: nat, c: Cuts, q: nat, key: string,
      k: nat, x: nat)
    requires On(at, dec, t, p, c) && q == Spaces(t, p) < |t|
    requires dec(t, q) == Got(Str(key), k) && ColonIn(t, k) == Some(x)
    requires ValueIn(dec, key, t, x).Some?
    ensures MemberEntries(at).Some? <==> MemberPasses(dec, t, q, c)
    decreases |t| - p, 4
  {
    var found := KeyAndColonReads(at, dec, t, p, c, q, key, k, x);
    MemberByKeyReadIff(at, dec, t, q, c, key, k, x, found, ForValue(dec, t, c, q));
  }

  /** With the reads `c`, this key and the window past its colon are found, if the colon is shown. */
  ghost predicate KeyFound(found: Option<(string, Window)>, key: string, dec: Decoder, t: string, x: nat, c: Cuts)
    requires x > 0
  {
    if ColonShown(c, x - 1) then found.Some? && found.value.0 == key && On(found.value.1, dec, t, x, Upto(c, x - 1))
    else found.None?
  }

  lemma {:induction false} MemberByKeyReadIff(at: Window, dec: Decoder, t: string, q: nat, c: Cuts, key: string, k: nat,
      x: nat, found: Option<(string, Window)>, c': Cuts)
    requires Valid(at) && found == KeyAndColon(at)
    requires q <= |t| && dec(t, q) == Got(Str(key), k) && ColonIn(t, k) == Some(x) && ValueIn(dec, key, t, x).Some?
    requires c' == ForValue(dec, t, c, q) && KeyFound(found, key, dec, t, x, c')
    ensures MemberEntries(at).Some? <==> MemberPasses(dec, t, q, c)
    decreases |t| - x, 8
  {
    MemberEntriesByKey(at, found);
    if found.Some? {
      MemberOnReadIff(at, dec, t, q, c, key, k, x, found.value.1, c');
    } else {
      MemberPassesIs(dec, t, q, c, key, k, x);
    }
  }

  lemma {:induction false} MemberOnReadIff(at: Window, dec: Decoder, t: string, q: nat, c: Cuts, key: string, k: nat,
      x: nat, colon: Window, c': Cuts)
    requires q <= |t| && dec(t, q) == Got(Str(key), k) && ColonIn(t, k) == Some(x) && ValueIn(dec, key, t, x).Some?
    requires Valid(at) && On(colon, dec, t, x, Upto(c', x - 1)) && MemberEntries(at) == ValueEntries(key, colon)
    requires c' == ForValue(dec, t, c, q) && ColonShown(c', x - 1)
    ensures MemberEntries(at).Some? <==> MemberPasses(dec, t, q, c)
    decreases |t| - x, 7
  {
    MemberPassesIs(dec, t, q, c, key, k, x);
    ValueReadIff(key, colon, dec, t, x, Upto(c', x - 1));
  }

  /** The key of a member, and the window past its colon. */
  function KeyAndColon(at: Window): (r: Option<(string, Window)>)
    requires Valid(at)
    ensures r.Some? ==> Valid(r.value.1)
  {
    match DecodedValue(at)
    case None => None
    case Some((key, after)) =>
      var colon := PastColon(after);
      if key.Str? && colon.Some? then Some((key.text, colon.value)) else None
  }

  lemma MemberEntriesByKey(at: Window, found: Option<(string, Window)>)
    requires Valid(at) && found == KeyAndColon(at)
    ensures MemberEntries(at) == if found.None? then None else ValueEntries(found.value.0, found.value.1)
  {
  }

  /** Where the key stands at `q`. */
  lemma KeyAndColonReads(at: Window, dec: Decoder, t: string, p: nat, c: Cuts, q: nat, key: string, k: nat, x: nat)
    returns (found: Option<(string, Window)>)
    requires On(at, dec, t, p, c) && q == Spaces(t, p) < |t|
    requires dec(t, q) == Got(Str(key), k) && ColonIn(t, k) == Some(x)
    ensures found == KeyAndColon(at) && KeyFound(found, key, dec, t, x, ForValue(dec, t, c, q))
  {
    var value, after := KeyTaken(at, dec, t, p, c, q);
    var colon := ColonFound(after, dec, t, k, ForValue(dec, t, c, q), x);
    found := if colon.Some? then Some((key, colon.value)) else None;
  }

  lemma ColonFound(w: Window, dec: Decoder, t: string, p: nat, c: Cuts, x: nat) returns (found: Option<Window>)
    requires On(w, dec, t, p, c) && ColonIn(t, p) == Some(x)
    ensures found == PastColon(w) && (found.Some? <==> ColonShown(c, x - 1))
    ensures found.Some? ==> On(found.value, dec, t, x, Upto(c, x - 1))
  {
    ColonReads(w, dec, t, p, c, x - 1);
    found := PastColon(w);
  }

  lemma MemberPassesIs(dec: Decoder, t: string, q: nat, c: Cuts, key: string, k: nat, p: nat)
    requires q <= |t| && dec(t, q) == Got(Str(key), k) && ColonIn(t, k) == Some(p)
    ensures var c' := ForValue(dec, t, c, q);
            MemberPasses(dec, t, q, c) == (ColonShown(c', p - 1) && ValuePasses(dec, key, t, p, Upto(c', p - 1)))
  {
  }

  lemma {:induction false} ValueReadIff(key: string, w: Window, dec: Decoder, t: string, p: nat, c: Cuts)
    requires On(w, dec, t, p, c) && ValueIn(dec, key, t, p).Some?
    ensures ValueEntries(key, w).Some? <==> ValuePasses(dec, key, t, p, c)
    decreases |t| - p, 5
  {
    if IsSkillsKey(key) {
      SkillsReadIff(w, dec, t, p, c);
    } else {
      OtherReadIff(w, dec, t, p, c);
    }
  }

  lemma {:induction false} OtherReadIff(w: Window, dec: Decoder, t: string, p: nat, c: Cuts)
    requires On(w, dec, t, p, c) && OtherIn(dec, t, p).Some?
    ensures OtherEntries(w).Some? <==> OtherPasses(dec, t, p, c)
    decreases |t| - p, 1
  {
    OtherInParts(dec, t, p);
    var q := Spaces(t, p);
    var value, r := ValueTaken(w, dec, t, p, c, q);
    if WholeValue(dec, t, q, ForValue(dec, t, c, q)) {
      RestReadIff(r, dec, t, r.position, ForValue(dec, t, c, q));
    }
  }

  lemma {:induction false} SkillsReadIff(w: Window, dec: Decoder, t: string, p: nat, c: Cuts)
    requires On(w, dec, t, p, c) && SkillsIn(dec, t, p).Some?
    ensures SkillsEntries(w).Some? <==> SkillsPasses(dec, t, p, c)
    decreases |t| - p, 4
  {
    SkillsInParts(dec, t, p);
    if t[Spaces(t, p)] == '[' && Shown(c, Spaces(t, p)) {
      BracketReadIff(w, dec, t, p, c, Spaces(t, p));
    } else {
      ElsewhereReadIff(w, dec, t, p, c, Spaces(t, p));
    }
  }

  lemma AfterBracket(w: Window, dec: Decoder, t: string, p: nat, c: Cuts, v: nat) returns (next: Window)
    requires On(w, dec, t, p, c) && v == Spaces(t, p) < |t| && t[v] == '[' && Shown(c, v)
    ensures On(next, dec, t, v + 1, AtPeek(c, v)) && SkillsEntries(w) == SkillsArray(next)
  {
    var q, at := Peek(w, dec, t, p, c);
    SkillsEntriesIs(w, at);
    PastOn(at, dec, t, v, AtPeek(c, v));
    next := Past(at);
  }

  lemma SkillsElsewherePeeked(w: Window, dec: Decoder, t: string, p: nat, c: Cuts, v: nat) returns (at: Window)
    requires On(w, dec, t, p, c) && v == Spaces(t, p) < |t| && !(t[v] == '[' && Shown(c, v))
    ensures On(at, dec, t, at.position, AtPeek(c, v)) && SkillsEntries(w) == SkillsValue(at)
    ensures p <= at.position && v == Spaces(t, at.position)
  {
    var q;
    q, at := Peek(w, dec, t, p, c);
    SkillsEntriesIs(w, at);
  }

  lemma {:induction false} BracketReadIff(w: Window, dec: Decoder, t: string, p: nat, c: Cuts, v: nat)
    requires On(w, dec, t, p, c) && v == Spaces(t, p) < |t| && t[v] == '[' && Shown(c, v)
    requires SkillsArrayIn(dec, t, v + 1).Some?
    ensures SkillsEntries(w).Some? <==> SkillsPasses(dec, t, p, c)
    decreases |t| - p, 3
  {
    var next := AfterBracket(w, dec, t, p, c, v);
    ListReadIff(w, next, dec, t, p, c, v);
  }

  lemma {:induction false} ElsewhereReadIff(w: Window, dec: Decoder, t: string, p: nat, c: Cuts, v: nat)
    requires On(w, dec, t, p, c) && v == Spaces(t, p) < |t| && !(t[v] == '[' && Shown(c, v))
    requires dec(t, v).Got? && dec(t, v).value.Arr? ==> AllObjects(dec(t, v).value.items)
    ensures SkillsEntries(w).Some? <==> SkillsPasses(dec, t, p, c)
    decreases |t| - p, 3
  {
    var at := SkillsElsewherePeeked(w, dec, t, p, c, v);
    NoListReadIff(w, at, dec, t, p, c, v);
  }

  lemma {:induction false} ListReadIff(w: Window, next: Window, dec: Decoder, t: string, p: nat, c: Cuts, v: nat)
    requires Valid(w) && On(next, dec, t, v + 1, AtPeek(c, v)) && SkillsEntries(w) == SkillsArray(next)
    requires p <= |t| && v == Spaces(t, p) < |t| && t[v] == '[' && Shown(c, v) && SkillsArrayIn(dec, t, v + 1).Some?
    ensures SkillsEntries(w).Some? <==> SkillsPasses(dec, t, p, c)
    decreases |t| - p, 2
  {
    SkillsPassesIs(dec, t, p, c, v);
    ArrayReadIff(next, dec, t, v + 1, AtPeek(c, v));
  }

  lemma {:induction false} NoListReadIff(w: Window, at: Window, dec: Decoder, t: string, p: nat, c: Cuts, v: nat)
    requires Valid(w) && On(at, dec, t, at.position, AtPeek(c, v)) && SkillsEntries(w) == SkillsValue(at)
    requires p <= at.position <= |t| && v == Spaces(t, p) == Spaces(t, at.position) < |t|
    requires !(t[v] == '[' && Shown(c, v))
    requires dec(t, v).Got? && dec(t, v).value.Arr? ==> AllObjects(dec(t, v).value.items)
    ensures SkillsEntries(w).Some? <==> SkillsPasses(dec, t, p, c)
    decreases |t| - p, 2
  {
    SkillsPassesIs(dec, t, p, c, v);
    WholeReadIff(at, dec, t, at.position, AtPeek(c, v), v);
  }

  lemma SkillsPassesIs(dec: Decoder, t: string, p: nat, c: Cuts, v: nat)
    requires p <= |t| && v == Spaces(t, p) < |t|
    ensures SkillsPasses(dec, t, p, c) ==
              if t[v] == '[' && Shown(c, v) then ArrayPasses(dec, t, v + 1, AtPeek(c, v))
              else WholePasses(dec, t, v, AtPeek(c, v))
  {
  }

  lemma {:induction false} ArrayReadIff(w: Window, dec: Decoder, t: string, p: nat, c: Cuts)
    requires On(w, dec, t, p, c) && SkillsArrayIn(dec, t, p).Some?
    ensures SkillsArray(w).Some? <==> ArrayPasses(dec, t, p, c)
    decreases |t| - p, 1
  {
    ArrayReads(w, dec, t, p, c);
    if ArrayEntries(w).Some? {
      ArrayIsRight(w);
      var end := ArrayEntries(w).value.1;
      RestReadIff(end, dec, t, end.position, CutsOf(end));
    }
  }

  /** A list whose bracket is not shown is decoded as a whole; if it is JSON its items are the
      entries that are taken one by one otherwise. */
  lemma {:induction false} WholeReadIff(at: Window, dec: Decoder, t: string, p: nat, c: Cuts, v: nat)
    requires On(at, dec, t, p, c) && v == Spaces(t, p) < |t|
    requires dec(t, v).Got? && dec(t, v).value.Arr? ==> AllObjects(dec(t, v).value.items)
    ensures SkillsValue(at).Some? <==> WholePasses(dec, t, v, c)
    decreases |t| - p, 1
  {
    if dec(t, v).Fail? {
      NothingDecoded(at, v);
    } else {
      var value, r := ValueTaken(at, dec, t, p, c, v);
      if WholeValue(dec, t, v, ForValue(dec, t, c, v)) {
        ObjectReadOrNot(r, dec, t, r.position, ForValue(dec, t, c, v));
      }
    }
  }

  /** The same for an object that may be wrong. */
  lemma {:induction false} ObjectReadOrNot(w: Window, dec: Decoder, t: string, p: nat, c: Cuts)
    requires On(w, dec, t, p, c)
    ensures ObjectEntries(w).Some? <==> ObjectIn(dec, t, p).Some? && ObjectPasses(dec, t, p, c)
    decreases |t| - p, 7
  {
    if ObjectIn(dec, t, p).Some? {
      ObjectReadIff(w, dec, t, p, c);
    } else if ObjectEntries(w).Some? {
      ObjectIsRight(w);
    }
  }

  lemma NothingDecoded(at: Window, v: nat)
    requires Valid(at) && v == Spaces(Whole(at), at.position) < |Whole(at)|
    ensures at.decode(Whole(at), v).Fail? ==> SkillsValue(at).None?
  {
    if SkillsValue(at).Some? {
      SkillsValueDecodes(at);
    }
  }

  lemma {:induction false} RestReadIff(w: Window, dec: Decoder, t: string, p: nat, c: Cuts)
    requires On(w, dec, t, p, c) && GoesOnIn(dec, t, p).Some?
    ensures MembersGoOn(w).Some? <==> RestPasses(dec, t, p, c)
    decreases |t| - p, 10
  {
    GoesOnInParts(dec, t, p);
    if t[Spaces(t, p)] == ',' {
      RestAtComma(w, dec, t, p, c);
    } else {
      RestElsewhere(w, dec, t, p, c);
    }
  }

  lemma {:induction false} RestAtComma(w: Window, dec: Decoder, t: string, p: nat, c: Cuts)
    requires On(w, dec, t, p, c) && Spaces(t, p) < |t| && t[Spaces(t, p)] == ','
    requires ObjectIn(dec, t, Spaces(t, p) + 1).Some?
    ensures MembersGoOn(w).Some? <==> RestPasses(dec, t, p, c)
    decreases |t| - p, 9
  {
    var q, at := Peek(w, dec, t, p, c);
    if at.position == q {
      var next := MemberAfterComma(w, at, dec, t, p, c, q);
      CommaReadIff(w, next, dec, t, p, c, q);
    } else {
      CommaMissed(w, at, dec, t, p, c, q);
    }
  }

  lemma {:induction false} RestElsewhere(w: Window, dec: Decoder, t: string, p: nat, c: Cuts)
    requires On(w, dec, t, p, c) && Spaces(t, p) < |t| && t[Spaces(t, p)] != ','
    requires ObjectIn(dec, t, Spaces(t, p)).Some?
    ensures MembersGoOn(w).Some? <==> RestPasses(dec, t, p, c)
    decreases |t| - p, 9
  {
    var q, at := Peek(w, dec, t, p, c);
    NoCommaReadIff(w, at, dec, t, p, c, q);
  }

  lemma {:induction false} NoCommaReadIff(w: Window, at: Window, dec: Decoder, t: string, p: nat, c: Cuts, q: nat)
    requires Peeks(w, at, dec, t, p, c, q) && t[q] != ',' && ObjectIn(dec, t, q).Some?
    ensures MembersGoOn(w).Some? <==> RestPasses(dec, t, p, c)
    decreases |t| - p, 8
  {
    MembersGoOnIs(w, at);
    RestPassesIs(dec, t, p, c, q);
    ObjectFromReadIff(at, dec, t, at.position, AtPeek(c, q), q);
    if at.position == q && t[q] == '}' {
      BraceShown(dec, t, q, AtPeek(c, q));
      EndsGrow(AtPeek(c, q));
    }
  }

  /** Once read, a closing brace is shown. */
  lemma BraceShown(dec: Decoder, t: string, q: nat, c: Cuts)
    requires q < |t| && q == Spaces(t, q) && t[q] == '}'
    ensures q <= Once(c).end ==> ObjectPasses(dec, t, q, c)
  {
  }

  lemma {:induction false} CommaReadIff(w: Window, next: Window, dec: Decoder, t: string, p: nat, c: Cuts, q: nat)
    requires Valid(w) && On(next, dec, t, q + 1, AtPeek(c, q)) && MembersGoOn(w) == ObjectEntries(next)
    requires p <= |t| && q == Spaces(t, p) < |t| && t[q] == ',' && Shown(c, q) && ObjectIn(dec, t, q + 1).Some?
    ensures MembersGoOn(w).Some? <==> RestPasses(dec, t, p, c)
    decreases |t| - p, 8
  {
    RestPassesIs(dec, t, p, c, q);
    ObjectReadIff(next, dec, t, q + 1, AtPeek(c, q));
  }

  lemma MemberAfterComma(w: Window, at: Window, dec: Decoder, t: string, p: nat, c: Cuts, q: nat)
    returns (next: Window)
    requires Peeks(w, at, dec, t, p, c, q) && at.position == q && t[q] == ','
    ensures On(next, dec, t, q + 1, AtPeek(c, q)) && MembersGoOn(w) == ObjectEntries(next)
  {
    MembersGoOnIs(w, at);
    PastOn(at, dec, t, q, AtPeek(c, q));
    next := Past(at);
  }

  lemma RestPassesIs(dec: Decoder, t: string, p: nat, c: Cuts, q: nat)
    requires p <= |t| && q == Spaces(t, p) < |t|
    ensures RestPasses(dec, t, p, c) <==>
              if t[q] == ',' then Shown(c, q) && ObjectPasses(dec, t, q + 1, AtPeek(c, q))
              else ObjectPasses(dec, t, q, AtPeek(c, q))
  {
  }

  lemma CommaMissed(w: Window, at: Window, dec: Decoder, t: string, p: nat, c: Cuts, q: nat)
    requires Peeks(w, at, dec, t, p, c, q) && at.position < q && t[q] == ','
    ensures MembersGoOn(w).None? && !RestPasses(dec, t, p, c)
  {
    MembersGoOnIs(w, at);
    NoMemberThere(at, dec, t, at.position, AtPeek(c, q), q);
  }

  lemma NoMemberThere(at: Window, dec: Decoder, t: string, p: nat, c: Cuts, q: nat)
    requires On(at, dec, t, p, c) && q == Spaces(t, p) < |t| && t[q] == ','
    ensures ObjectEntries(at).None?
  {
    var q', again := Peek(at, dec, t, p, c);
    ObjectEntriesIs(at, again);
    NoKeyThere(again, dec, t, again.position, AtPeek(c, q), q);
  }

  /** The peek before has left the object at a token or at white space before it. */
  lemma {:induction false} ObjectFromReadIff(at: Window, dec: Decoder, t: string, p: nat, c: Cuts, q: nat)
    requires On(at, dec, t, p, c) && q == Spaces(t, p) && ObjectIn(dec, t, q).Some?
    ensures ObjectEntries(at).Some? <==> ObjectPasses(dec, t, q, c)
    decreases |t| - p, 7
  {
    ObjectInFromToken(dec, t, p, q);
    ObjectReadIff(at, dec, t, p, c);
    SpacesOnward(t, p, q);
  }
}
