/** The whole skills index, read in pieces: which texts and which cuts give its entries. */
module StreamIndex {
  import opened Wrappers
  import opened Text
  import opened Json
  import opened StreamRules
  import opened StreamFacts
  import opened StreamObjects
  import opened StreamCuts
  import opened StreamPasses

  // ---- the whole index ----

  predicate CutInto(pending: seq<string>, t: string) {
    Join(pending) == t && forall i | 0 <= i < |pending| :: pending[i] != ""
  }

  lemma ArrayIndexIsRight(at: Window)
    requires Valid(at) && at.position < |at.buffer| && at.buffer[at.position] == '[' && IndexEntries(at).Some?
    ensures IndexIn(at.decode, Whole(at), at.position) == IndexEntries(at)
  {
    BufferInWhole(at);
    BracketIsRight(at, Past(at));
  }

  lemma BracketIsRight(at: Window, next: Window)
    requires Valid(at) && Onward(at, next) && at.position + 1 == next.position && ArrayEntries(next).Some?
    requires at.position < |Whole(at)| && Whole(at)[at.position] == '['
    ensures IndexIn(at.decode, Whole(at), at.position) == Some(ArrayEntries(next).value.0)
  {
    ArrayIsRight(next);
    IndexInBrackets(at.decode, Whole(at), at.position);
  }

  lemma IndexInBrackets(dec: Decoder, t: string, q: nat)
    requires q < |t| && t[q] == '[' && ArrayIn(dec, t, q + 1).Some?
    ensures IndexIn(dec, t, q) == Some(ArrayIn(dec, t, q + 1).value.0)
  {
  }

  lemma ObjectIndexIsRight(at: Window)
    requires Valid(at) && at.position < |at.buffer| && at.buffer[at.position] == '{'
    requires IndexEntries(at).Some?
    ensures IndexIn(at.decode, Whole(at), at.position) == IndexEntries(at)
  {
    BufferInWhole(at);
    ObjectIsRight(Past(at));
  }

  lemma IndexIsRight(at: Window)
    requires Valid(at) && at.position < |at.buffer| && IndexEntries(at).Some?
    ensures IndexIn(at.decode, Whole(at), at.position) == IndexEntries(at)
  {
    if at.buffer[at.position] == '[' {
      ArrayIndexIsRight(at);
    } else {
      ObjectIndexIsRight(at);
    }
  }

  /** Entries that the reader returns are those of the text, in both forms and for any cuts. */
  lemma NeverWrong(dec: Decoder, pending: seq<string>, t: string)
    requires IsJson(dec)
    requires CutInto(pending, t) && TopLevelEntries(Unread(dec, pending)).Some?
    ensures EntriesIn(dec, t) == TopLevelEntries(Unread(dec, pending))
  {
    var w := Filled(Unread(dec, pending));
    CompletedJoins("", pending);
    assert Whole(Unread(dec, pending)) == t;
    IndexIsRight(Peeked(w));
    PeekedTokenIsRight(w);
  }

  /** What the first read leaves. */
  function FirstRead(pending: seq<string>): Cuts {
    Once(Cuts(0, Lengths(pending)))
  }

  /** These reads show the first token and let what follows it through. */
  predicate IndexPasses(dec: Decoder, pending: seq<string>, t: string) {
    var q, c := Spaces(t, 0), FirstRead(pending);
    && q < |t| && Shown(c, q)
    && if t[q] == '[' then ArrayCuts(dec, t, q + 1, AtPeek(c, q)).Some?
       else ObjectPasses(dec, t, q + 1, AtPeek(c, q))
  }

  lemma FirstFill(dec: Decoder, pending: seq<string>, t: string, n: nat)
    requires IsJson(dec) && CutInto(pending, t) && LongReads(pending, n) && t != ""
    ensures var w := Filled(Unread(dec, pending));
            && Valid(w) && Whole(w) == t && w.position == 0 && Calm(w, Clear(pending), n)
            && CutsOf(w) == FirstRead(pending)
  {
    CompletedJoins("", pending);
    assert Whole(Unread(dec, pending)) == t;
    CutsFilled(Unread(dec, pending));
    assert "" + pending[0] == pending[0];
  }

  /** The first token is found if the reads are clear or it is near the start. */
  lemma FirstToken(pending: seq<string>, t: string, at: Window, n: nat)
    requires IsJson(at.decode) && CutInto(pending, t) && LongReads(pending, n) && Spaces(t, 0) < |t|
    requires at == Peeked(Filled(Unread(at.decode, pending)))
    requires Clear(pending) || Near(0, Spaces(t, 0), n)
    ensures Whole(at) == t && at.position == Spaces(t, 0) < |at.buffer| && at.buffer[at.position] == t[at.position]
    ensures Calm(at, Clear(pending), n)
  {
    FirstFill(at.decode, pending, t, n);
    var w := Filled(Unread(at.decode, pending));
    PeekStops(w);
    PeekFinds(w, n);
    CalmPeeked(w, Clear(pending), n);
  }

  lemma ArrayIndexIsComplete(at: Window, n: nat)
    requires Valid(at) && at.position < |at.buffer| && at.buffer[at.position] == '[' && Favourable(Past(at), n)
    requires IndexIn(at.decode, Whole(at), at.position).Some?
    ensures IndexEntries(at).Some?
  {
    BufferInWhole(at);
    ArrayIsComplete(Past(at), n);
  }

  lemma IndexReadIff(at: Window, q: nat)
    requires Valid(at) && q == at.position < |at.buffer| && IndexIn(at.decode, Whole(at), q).Some?
    ensures IndexEntries(at).Some? <==>
              if Whole(at)[q] == '[' then ArrayCuts(at.decode, Whole(at), q + 1, CutsOf(at)).Some?
              else ObjectPasses(at.decode, Whole(at), q + 1, CutsOf(at))
  {
    BufferInWhole(at);
    PastOn(at, at.decode, Whole(at), q, CutsOf(at));
    if Whole(at)[q] == '[' {
      ArrayReads(Past(at), at.decode, Whole(at), q + 1, CutsOf(at));
    } else {
      ObjectReadIff(Past(at), at.decode, Whole(at), q + 1, CutsOf(at));
    }
  }

  lemma TopLevelFrom(w: Window, at: Window)
    requires Valid(w) && at == Peeked(Filled(w)) && at.position < |at.buffer|
    ensures TopLevelEntries(w) == IndexEntries(at)
  {
  }

  lemma IndexReadsIff(dec: Decoder, pending: seq<string>, t: string)
    requires IsJson(dec) && CutInto(pending, t) && EntriesIn(dec, t).Some?
    ensures TopLevelEntries(Unread(dec, pending)).Some? <==> IndexPasses(dec, pending, t)
  {
    FirstFill(dec, pending, t, 0);
    var w := Filled(Unread(dec, pending));
    var at := Peeked(w);
    PeekReads(w, at);
    TopLevelFrom(Unread(dec, pending), at);
    if Shown(FirstRead(pending), Spaces(t, 0)) {
      IndexReadIff(at, Spaces(t, 0));
    } else {
      SpaceMisleads(Unread(dec, pending), w, at);
    }
  }

  /** Of an index in whatever pieces it comes, the outcome is that of the whole text exactly if the
      text and the lengths of the reads let it through, or the text is refused anyway. */
  lemma IndexIsReadIff(dec: Decoder, pending: seq<string>, t: string)
    requires IsJson(dec) && CutInto(pending, t)
    ensures TopLevelEntries(Unread(dec, pending)) == EntriesIn(dec, t)
            <==> IndexPasses(dec, pending, t) || EntriesIn(dec, t).None?
  {
    if TopLevelEntries(Unread(dec, pending)).Some? {
      NeverWrong(dec, pending, t);
    }
    if EntriesIn(dec, t).Some? {
      IndexReadsIff(dec, pending, t);
    }
  }

  // ---- the reads of a file ----

  /** What `read(n)` returns, time after time, of a text file. */
  function Chunks(t: string, n: nat): (pending: seq<string>)
    requires n > 0
    ensures Join(pending) == t && LongReads(pending, n)
    ensures forall i | 0 <= i < |pending| :: 0 < |pending[i]| <= n
    decreases |t|
  {
    if t == "" then []
    else if |t| <= n then ["" + t]
    else
      var rest := Chunks(t[n..], n);
      assert ([t[..n]] + rest)[1..] == rest;
      [t[..n]] + rest
  }

  const SKILLS_INDEX_READ_CHUNK_BYTES := 16 * 1024

  /** For the reads that the reader makes of a file. */
  lemma FileIsReadIff(dec: Decoder, t: string)
    requires IsJson(dec)
    ensures var pending := Chunks(t, SKILLS_INDEX_READ_CHUNK_BYTES);
            TopLevelEntries(Unread(dec, pending)) == EntriesIn(dec, t)
            <==> IndexPasses(dec, pending, t) || EntriesIn(dec, t).None?
  {
    IndexIsReadIff(dec, Chunks(t, SKILLS_INDEX_READ_CHUNK_BYTES), t);
  }

  /** The lengths of the reads in which `m` characters come. */
  function Portions(m: nat, n: nat): seq<nat>
    requires n > 0
  {
    if m == 0 then [] else if m <= n then [m] else [n] + Portions(m - n, n)
  }

  lemma LengthsOfMore(first: string, rest: seq<string>)
    ensures Lengths([first] + rest) == [|first|] + Lengths(rest)
  {
  }

  lemma {:induction false} ChunkLengths(t: string, n: nat)
    requires n > 0
    ensures Lengths(Chunks(t, n)) == Portions(|t|, n)
    decreases |t|
  {
    if |t| > n {
      ChunkLengths(t[n..], n);
      LengthsOfMore(t[..n], Chunks(t[n..], n));
    }
  }

  /** Such reads end at every `n`-th character, and a peek shows a token that lies at most `n`
      characters behind what was read. */
  lemma ChunksShow(t: string, n: nat, end: nat, q: nat)
    requires n > 0 && end <= |t| && q <= |t|
    ensures var next := if end + n < |t| then end + n else |t|;
            && FirstRead(Chunks(t, n)) == Once(Cuts(0, Portions(|t|, n)))
            && Once(Cuts(end, Portions(|t| - end, n))) == Cuts(next, Portions(|t| - next, n))
            && (Shown(Cuts(end, Portions(|t| - end, n)), q) <==> q <= end + n)
  {
    ChunkLengths(t, n);
    PortionsLater(|t| - end, n);
  }

  lemma PortionsLater(m: nat, n: nat)
    requires n > 0
    ensures m > n ==> Portions(m, n)[0] == n && Portions(m, n)[1..] == Portions(m - n, n)
    ensures 0 < m <= n ==> Portions(m, n)[0] == m && Portions(m, n)[1..] == Portions(0, n)
  {
  }

  // ---- array indexes, however they are cut ----

  predicate ArrayIndex(dec: Decoder, t: string) {
    EntriesIn(dec, t).Some? && t[Spaces(t, 0)] == '['
  }

  /** At most 2n spaces before the opening bracket, and each comma and the closing bracket near the
      token before it. */
  predicate TightIndex(dec: Decoder, t: string, n: nat)
    requires Spaces(t, 0) < |t|
  {
    Spaces(t, 0) <= 2 * n && Tight(dec, t, Spaces(t, 0) + 1, n)
  }

  lemma TightIndexIsRead(dec: Decoder, pending: seq<string>, t: string, n: nat)
    requires IsJson(dec) && CutInto(pending, t) && LongReads(pending, n)
    requires ArrayIndex(dec, t) && TightIndex(dec, t, n)
    ensures TopLevelEntries(Unread(dec, pending)) == EntriesIn(dec, t)
  {
    var at := Peeked(Filled(Unread(dec, pending)));
    FirstToken(pending, t, at, n);
    ArrayIndexIsComplete(at, n);
    NeverWrong(dec, pending, t);
  }

  /** The text cut at `g` and `g + n`, as reads. */
  function ThreeReads(t: string, g: nat, n: nat): seq<string>
    requires 0 < n <= g && g + n < |t|
  {
    [t[..g], t[g..g + n], t[g + n..]]
  }

  lemma ThreeReadsFill(dec: Decoder, t: string, g: nat, n: nat)
    requires IsJson(dec) && 0 < n <= g && g + n < |t|
    ensures CutInto(ThreeReads(t, g, n), t) && LongReads(ThreeReads(t, g, n), n)
    ensures Valid(Unread(dec, ThreeReads(t, g, n)))
    ensures Filled(Unread(dec, ThreeReads(t, g, n))) == CutAt(dec, t, g, n, 0)
  {
    JoinTwo(t[g..g + n], t[g + n..]);
    assert ThreeReads(t, g, n)[1..] == [t[g..g + n], t[g + n..]];
    assert t[..g] + (t[g..g + n] + t[g + n..]) == t;
    assert "" + t[..g] == t[..g];
  }

  lemma ThreeReadsFilled(dec: Decoder, t: string, g: nat, n: nat) returns (w: Window, filled: Window)
    requires IsJson(dec) && 0 < n <= g && g + n < |t|
    ensures Valid(w) && w == Unread(dec, ThreeReads(t, g, n)) && filled == Filled(w) == CutAt(dec, t, g, n, 0)
  {
    ThreeReadsFill(dec, t, g, n);
    w, filled := Unread(dec, ThreeReads(t, g, n)), CutAt(dec, t, g, n, 0);
  }

  /** Where the first peek shows a space, the index is refused. */
  lemma SpaceMisleads(w: Window, filled: Window, at: Window)
    requires Valid(w) && filled == Filled(w) && at == Peeked(filled)
    requires at.position < |at.buffer| && IsSpace(at.buffer[at.position])
    ensures TopLevelEntries(w).None?
  {
  }

  /** Where the array is given up on, so is the index. */
  lemma ArrayMisleads(w: Window, filled: Window, at: Window, next: Window)
    requires Valid(w) && filled == Filled(w) && at == Peeked(filled)
    requires at.position < |at.buffer| && at.buffer[at.position] == '[' && next == Past(at) && ArrayEntries(next).None?
    ensures TopLevelEntries(w).None?
  {
  }

  lemma SpacesMisleadAtStart(dec: Decoder, t: string, n: nat)
    requires IsJson(dec) && n > 0 && 2 * n < Spaces(t, 0) < |t|
    ensures TopLevelEntries(Unread(dec, ThreeReads(t, n, n))).None?
  {
    ThreeReadsFill(dec, t, n, n);
    CutShowsSpace(dec, t, n);
    var filled := CutAt(dec, t, n, n, 0);
    SpaceMisleads(Unread(dec, ThreeReads(t, n, n)), filled, Peeked(filled));
  }

  lemma CutShowsSpace(dec: Decoder, t: string, n: nat)
    requires IsJson(dec) && n > 0 && 2 * n < Spaces(t, 0) < |t|
    ensures var at := Peeked(CutAt(dec, t, n, n, 0)); at.position < |at.buffer| && IsSpace(at.buffer[at.position])
  {
    PeekPastCut(dec, t, n, n, 0);
    assert IsSpace(t[2 * n]);
  }

  lemma PastCut(dec: Decoder, t: string, g: nat, n: nat, p: nat)
    requires IsJson(dec) && n > 0 && p < g && g + n < |t|
    ensures var at := CutAt(dec, t, g, n, p);
            at.position < |at.buffer| && at.buffer[at.position] == t[p] && Past(at) == CutAt(dec, t, g, n, p + 1)
  {
  }

  /** The reader gets to the first token, within the first read. */
  lemma CutIndexStarts(dec: Decoder, t: string, g: nat, n: nat) returns (w: Window, filled: Window, at: Window,
      next: Window)
    requires IsJson(dec) && 0 < n <= g && g + n < |t| && Spaces(t, 0) < g
    ensures Valid(w) && w == Unread(dec, ThreeReads(t, g, n)) && filled == Filled(w) && at == Peeked(filled)
    ensures at.position < |at.buffer| && at.buffer[at.position] == t[Spaces(t, 0)]
    ensures next == Past(at) && next == CutAt(dec, t, g, n, Spaces(t, 0) + 1)
  {
    var q := Spaces(t, 0);
    w, filled := ThreeReadsFilled(dec, t, g, n);
    PeekInFront(dec, t, g, n, 0);
    PastCut(dec, t, g, n, q);
    at, next := CutAt(dec, t, g, n, q), CutAt(dec, t, g, n, q + 1);
  }

  lemma CutIndexMisleads(dec: Decoder, t: string, g: nat, n: nat, next: Window)
    requires IsJson(dec) && 0 < n <= g && g + n < |t| && Spaces(t, 0) < g && t[Spaces(t, 0)] == '['
    requires next == CutAt(dec, t, g, n, Spaces(t, 0) + 1) && ArrayEntries(next).None?
    ensures TopLevelEntries(Unread(dec, ThreeReads(t, g, n))).None?
  {
    var w, filled, at, past := CutIndexStarts(dec, t, g, n);
    ArrayMisleads(w, filled, at, next);
  }

  lemma LooseIndexGivesUp(dec: Decoder, t: string, n: nat) returns (pending: seq<string>)
    requires IsJson(dec) && n > 0 && ArrayIndex(dec, t) && !TightIndex(dec, t, n)
    ensures CutInto(pending, t) && LongReads(pending, n) && TopLevelEntries(Unread(dec, pending)).None?
  {
    var q := Spaces(t, 0);
    if q > 2 * n {
      SpacesMisleadAtStart(dec, t, n);
      ThreeReadsFill(dec, t, n, n);
      pending := ThreeReads(t, n, n);
    } else {
      LooseArrayGivesUp(dec, t, q + 1, n);
      var g :| MisleadAt(dec, t, g, n, q + 1);
      CutIndexMisleads(dec, t, g, n, CutAt(dec, t, g, n, q + 1));
      ThreeReadsFill(dec, t, g, n);
      pending := ThreeReads(t, g, n);
    }
  }

  /** Exactly the tight array indexes are read alike for all ways to cut them into reads of at
      least `n` characters, the last of which may be shorter. */
  lemma EveryCutReadsIff(dec: Decoder, t: string, n: nat)
    requires IsJson(dec) && n > 0 && ArrayIndex(dec, t)
    ensures (forall pending | CutInto(pending, t) && LongReads(pending, n) ::
               TopLevelEntries(Unread(dec, pending)) == EntriesIn(dec, t))
            <==> TightIndex(dec, t, n)
  {
    if TightIndex(dec, t, n) {
      forall pending | CutInto(pending, t) && LongReads(pending, n)
        ensures TopLevelEntries(Unread(dec, pending)) == EntriesIn(dec, t)
      {
        TightIndexIsRead(dec, pending, t, n);
      }
    } else {
      var pending := LooseIndexGivesUp(dec, t, n);
    }
  }

  // ---- indexes that are right and are refused -----------------------------------------------------

  function Padding(n: nat): (s: string)
    ensures |s| == n && forall i | 0 <= i < n :: s[i] == ' '
  {
    seq(n, i => ' ')
  }

  lemma PaddedArrayIsEmpty(dec: Decoder, n: nat)
    ensures var t := "[" + Padding(2 * n) + "]";
            && |t| == 2 * n + 2 && Spaces(t, 0) == 0 && t[0] == '[' && Spaces(t, 1) == 2 * n + 1 && t[2 * n + 1] == ']'
            && EntriesIn(dec, t) == Some([])
  {
    var t := "[" + Padding(2 * n) + "]";
    assert t[2 * n + 1] == ']' && Spaces(t, 1) == 2 * n + 1;
    assert ArrayIn(dec, t, 1) == Some(([], 2 * n + 2));
  }

  /** An empty array of 2n spaces, read n characters at a time, is refused. */
  lemma PaddedArrayExample(dec: Decoder, n: nat)
    requires IsJson(dec) && n > 0
    ensures var t := "[" + Padding(2 * n) + "]";
            var pending := ThreeReads(t, n, n);
            && |pending[0]| == |pending[1]| == n && |pending[2]| == 2
            && CutInto(pending, t) && EntriesIn(dec, t) == Some([])
            && TopLevelEntries(Unread(dec, pending)).None?
  {
    var t := "[" + Padding(2 * n) + "]";
    PaddedArrayIsEmpty(dec, n);
    CutSpacesMislead(dec, t, n, n, 1);
    CutIndexMisleads(dec, t, n, n, CutAt(dec, t, n, n, 1));
    ThreeReadsFill(dec, t, n, n);
  }

  /** The beginning of an object index with one member whose value starts at `v`. */
  predicate OneMember(s: string, v: nat) {
    && 5 <= v < |s| && s[..5] == "{\"a\":" && !IsSpace(s[v]) && forall i | 5 <= i < v :: s[i] == ' '
  }

  lemma KeyOfExample(dec: Decoder, s: string, v: nat)
    requires IsJson(dec) && OneMember(s, v)
    ensures Spaces(s, 0) == 0 && Spaces(s, 1) == 1 && Spaces(s, 4) == 4 && Spaces(s, 5) == v
    ensures dec(s, 1) == Got(Str("a"), 4)
  {
    assert forall i | 0 <= i < 5 :: s[i] == s[..5][i];
    assert StringEnd(s, 2) == Some(4);
    assert s[2..3] == "a";
    assert dec(s, 1) == Decode(s, 1);
  }

  lemma DigitsDecode(dec: Decoder, s: string, v: nat, e: nat)
    requires IsJson(dec) && v < e <= |s| && '1' <= s[v] <= '9' && forall i | v <= i < e :: Digit(s[i])
    requires e < |s| ==> s[e] == '}'
    ensures dec(s, v) == Got(Number(s[v..e]), e)
  {
    assert Digits(s, v + 1) == e;
    NumberIsNoWord(s, v);
    assert dec(s, v) == Decode(s, v);
  }

  lemma NotSkills()
    ensures !IsSkillsKey("a")
  {
    assert Units("a") == [97] + Units("");
  }

  lemma NoSkillsInExample(dec: Decoder, t: string, v: nat, e: nat)
    requires IsJson(dec) && OneMember(t, v) && dec(t, v).Got? && dec(t, v).end == e < |t| && t[e] == '}'
    ensures EntriesIn(dec, t) == Some([])
  {
    KeyOfExample(dec, t, v);
    NotSkills();
    assert t[4] == t[..5][4] && t[0] == t[..5][0] && t[1] == t[..5][1];
    assert ColonIn(t, 4) == Some(5);
    MemberInOf(dec, t, 1, Str("a"), 4, 5);
    GoesOnInIs(dec, t, e);
    assert OtherIn(dec, t, 5) == GoesOnIn(dec, t, e);
  }

  /** The reader gets as far as the value. */
  lemma ReaderAtValue(dec: Decoder, s: string, rest: string, v: nat)
    requires IsJson(dec) && OneMember(s, v) && rest != ""
    ensures Valid(Window(s, 5, [rest], false, dec))
    ensures TopLevelEntries(Unread(dec, [s, rest])) == OtherEntries(Window(s, 5, [rest], false, dec))
  {
    var w := Window(s, 0, [rest], false, dec);
    assert [s, rest][1..] == [rest] && "" + s == s;
    assert Filled(Unread(dec, [s, rest])) == w;
    ReaderAtBrace(w, v);
    ReaderAtMember(w.(position := 1), v);
  }

  lemma ReaderAtBrace(w: Window, v: nat)
    requires Valid(w) && w.position == 0 && OneMember(w.buffer, v)
    ensures Peeked(w) == w && IndexEntries(w) == MemberEntries(w.(position := 1))
  {
    KeyOfExample(w.decode, w.buffer, v);
    assert w.buffer[0] == w.buffer[..5][0] && w.buffer[1] == w.buffer[..5][1];
    var at := w.(position := 1);
    assert Peeked(at) == at;
    assert ObjectEntries(at) == MemberEntries(at);
  }

  lemma ReaderAtMember(at: Window, v: nat)
    requires Valid(at) && at.position == 1 && OneMember(at.buffer, v)
    ensures MemberEntries(at) == OtherEntries(at.(position := 5))
  {
    KeyOfExample(at.decode, at.buffer, v);
    NotSkills();
    assert at.buffer[4] == at.buffer[..5][4] && at.buffer[1] == at.buffer[..5][1];
    var after, colon := at.(position := 4), at.(position := 5);
    assert DecodedValue(at) == Some((Str("a"), after));
    assert PastColon(after) == Some(colon);
    MemberEntriesIs(at, Str("a"), after, colon);
  }

  /** A reader that has read up to the first digit of a number and no further fails. */
  lemma DigitThenMore(dec: Decoder, s: string, rest: string, v: nat)
    requires IsJson(dec) && OneMember(s, v) && v == |s| - 1 && '1' <= s[v] <= '9' && rest != "" && Digit(rest[0])
    ensures Valid(Window(s, 5, [rest], false, dec)) && OtherEntries(Window(s, 5, [rest], false, dec)).None?
  {
    var w := Window(s, 5, [rest], false, dec);
    KeyOfExample(dec, s, v);
    DigitsDecode(dec, s, v, v + 1);
    assert Skipped(w) == w.(position := v);
    assert DecodedValue(w) == Some((Number(s[v..v + 1]), w.(position := v + 1)));
    FillShowsRead(w);
    assert Whole(w)[|s| + 0] == rest[0];
    CutNumberGivesUp(w);
  }

  lemma ExampleText(s: string, n: nat)
    requires n >= 6 && s == "{\"a\":" + Padding(n - 6) + "1"
    ensures |s| == n && s[n - 1] == '1' && OneMember(s, n - 1)
    ensures OneMember(s + "2}", n - 1) && (s + "2}")[n - 1] == '1' && (s + "2}")[n] == '2' && (s + "2}")[n + 1] == '}'
  {
    assert (s + "2}")[..5] == s[..5] == "{\"a\":";
  }

  /** An object index whose first read of `n` characters ends between the digits of a number has
      no entries but is refused. */
  lemma CutNumberExample(dec: Decoder, n: nat)
    requires IsJson(dec) && n >= 6
    ensures var s := "{\"a\":" + Padding(n - 6) + "1";
            && |s| == n && CutInto([s, "2}"], s + "2}") && Clear([s, "2}"])
            && EntriesIn(dec, s + "2}") == Some([]) && TopLevelEntries(Unread(dec, [s, "2}"])).None?
  {
    var s := "{\"a\":" + Padding(n - 6) + "1";
    ExampleText(s, n);
    JoinTwo(s, "2}");
    DigitsDecode(dec, s + "2}", n - 1, n + 1);
    NoSkillsInExample(dec, s + "2}", n - 1, n + 1);
    ReaderAtValue(dec, s, "2}", n - 1);
    DigitThenMore(dec, s, "2}", n - 1);
  }

  /** A sign alone does not decode yet. */
  lemma SignThenDigit(dec: Decoder, s: string, t: string)
    requires IsJson(dec) && s == "{\"a\":-" && t == "{\"a\":-1}"
    ensures dec(s, 5).Fail? && dec(t, 5) == Got(Number(t[5..7]), 7)
  {
    assert dec(s, 5) == Decode(s, 5) && IntegerEnd(s, 5).None? && !ReadsWord(s, 5, "-Infinity");
    assert dec(t, 5) == Decode(t, 5) && IntegerEnd(t, 5) == Some(7);
    NumberIsNoWord(t, 5);
  }

  /** A read that ends after the sign of a number does no harm. */
  lemma CutAfterSignExample(dec: Decoder)
    requires IsJson(dec)
    ensures TopLevelEntries(Unread(dec, ["{\"a\":-", "1}"])) == Some([])
  {
    var s, t := "{\"a\":-", "{\"a\":-1}";
    SignThenDigit(dec, s, t);
    ReaderAtValue(dec, s, "1}", 5);
    assert s + "1}" == t && ["1}"][1..] == [];
    var w, whole := Window(s, 5, ["1}"], false, dec), Window(t, 5, [], false, dec);
    ValueInTwoReads(w, whole);
    var end := whole.(position := 7);
    MembersGoOnIs(end, end);
  }

  lemma ValueInTwoReads(w: Window, whole: Window)
    requires Valid(w) && Valid(whole) && w.pending != [] && Filled(w) == whole && w.position < |w.buffer|
    requires !IsSpace(w.buffer[w.position]) && w.buffer[w.position] == whole.buffer[w.position]
    requires w.decode(w.buffer, w.position).Fail? && w.decode(whole.buffer, w.position).Got?
    ensures var d := w.decode(whole.buffer, w.position);
            DecodedValue(w) == Some((d.value, whole.(position := d.end)))
  {
    assert Skipped(w) == w && Skipped(whole) == whole && whole.decode == w.decode;
    var d := w.decode(whole.buffer, w.position);
    assert DecodedFrom(whole) == Some((d.value, whole.(position := d.end)));
    assert DecodedFrom(w) == DecodedFrom(Skipped(Filled(w)));
  }
}
