/** The streaming reader against the whole text: it never returns wrong entries, and exactly which
    cuts and which texts make it give up on an index that is right. */
module StreamFacts {
  import opened Wrappers
  import opened Text
  import opened Json
  import opened StreamRules

  // ---- white space ----

  lemma SpacesOnward(s: string, p: nat, k: nat)
    requires p <= |s| && p <= k <= Spaces(s, p)
    ensures Spaces(s, k) == Spaces(s, p)
  {
  }

  lemma {:induction false} CompletedJoins(buffer: string, pending: seq<string>)
    ensures Completed(buffer, pending) == buffer + Join(pending)
    decreases |pending|
  {
    if pending != [] {
      CompletedJoins(buffer + pending[0], pending[1..]);
      assert buffer + pending[0] + Join(pending[1..]) == buffer + (pending[0] + Join(pending[1..]));
    }
  }

  /** What was read so far begins the whole text. */
  lemma BufferInWhole(w: Window)
    ensures Same(w.buffer, Whole(w), |w.buffer|)
  {
    CompletedJoins(w.buffer, w.pending);
  }

  lemma SpacesOfWhole(w: Window)
    requires Valid(w)
    ensures var q := Spaces(w.buffer, w.position);
            && (q < |w.buffer| ==> Spaces(Whole(w), w.position) == q)
            && (q == |w.buffer| ==> Spaces(Whole(w), w.position) == Spaces(Whole(w), q) >= q)
  {
    var t, q := Whole(w), Spaces(w.buffer, w.position);
    BufferInWhole(w);
    assert q <= Spaces(t, w.position);
  }

  lemma FillShowsRead(w: Window)
    requires Valid(w) && w.pending != []
    ensures Filled(w) == Window(w.buffer + w.pending[0], w.position, w.pending[1..], false, w.decode)
    ensures |Whole(w)| >= |w.buffer| + |w.pending[0]|
    ensures forall i | 0 <= i < |w.pending[0]| :: Whole(w)[|w.buffer| + i] == w.pending[0][i]
  {
    BufferInWhole(Filled(w));
    assert forall i | 0 <= i < |w.pending[0]| :: (w.buffer + w.pending[0])[|w.buffer| + i] == w.pending[0][i];
  }

  /** Where a skip stops: at the next token, or on white space with which a read begins. */
  lemma SkipStops(w: Window)
    requires Valid(w)
    ensures var t, p, r := Whole(w), w.position, Skipped(w);
            && p <= r.position <= Spaces(t, p) == Spaces(t, r.position)
            && (r.position == Spaces(t, p)
                || (w.pending != [] && Spaces(w.buffer, p) == |w.buffer| == r.position && IsSpace(w.pending[0][0])
                    && r == Window(w.buffer + w.pending[0], |w.buffer|, w.pending[1..], false, w.decode)))
  {
    SpacesOfWhole(w);
    var q := Spaces(w.buffer, w.position);
    if q == |w.buffer| {
      if w.pending != [] {
        FillShowsRead(w);
      } else {
        assert Whole(w) == w.buffer;
      }
    }
    SpacesOnward(Whole(w), w.position, Skipped(w).position);
  }

  /** Cuts that lie well keep lying well while the reader moves on. */
  predicate Calm(w: Window, clear: bool, n: nat) {
    (clear ==> Clear(w.pending)) && LongReads(w.pending, n) && (w.pending != [] ==> |w.buffer| >= n)
  }

  lemma CalmFilled(w: Window, clear: bool, n: nat)
    requires Valid(w) && Calm(w, clear, n)
    ensures Calm(Filled(w), clear, n)
  {
    if w.pending != [] {
      FillShowsRead(w);
    }
  }

  lemma CalmSkipped(w: Window, clear: bool, n: nat)
    requires Valid(w) && Calm(w, clear, n)
    ensures Calm(Skipped(w), clear, n)
  {
    CalmFilled(w.(position := Spaces(w.buffer, w.position)), clear, n);
  }

  lemma CalmPeeked(w: Window, clear: bool, n: nat)
    requires Valid(w) && Calm(w, clear, n)
    ensures Calm(Peeked(w), clear, n)
  {
    CalmSkipped(w, clear, n);
    CalmSkipped(Skipped(w), clear, n);
  }

  lemma {:induction false} CalmDecodedFrom(w: Window, clear: bool, n: nat)
    requires Valid(w) && Calm(w, clear, n) && DecodedFrom(w).Some?
    ensures Calm(DecodedFrom(w).value.1, clear, n)
    decreases |w.pending|, !w.eof
  {
    if w.decode(w.buffer, w.position).Fail? {
      CalmFilled(w, clear, n);
      CalmSkipped(Filled(w), clear, n);
      CalmDecodedFrom(Skipped(Filled(w)), clear, n);
    }
  }

  lemma CalmDecoded(w: Window, clear: bool, n: nat)
    requires Valid(w) && Calm(w, clear, n) && DecodedValue(w).Some?
    ensures Calm(DecodedValue(w).value.1, clear, n)
  {
    CalmSkipped(w, clear, n);
    CalmDecodedFrom(Skipped(w), clear, n);
  }

  /** A peek after a skip shows the next token, or white space. */
  lemma PeekStops(w: Window)
    requires Valid(w)
    ensures var t, p, r := Whole(w), w.position, Peeked(w);
            && p <= r.position <= Spaces(t, p) == Spaces(t, r.position)
            && (r.position < Spaces(t, p) ==> IsSpace(r.buffer[r.position]))
            && (r.position == Spaces(t, p) < |t| ==> r.position < |r.buffer| && r.buffer[r.position] == t[r.position])
            && (r.position == |r.buffer| <==> r.position == |t|)
  {
    SkipStops(w);
    SkipStops(Skipped(w));
    var r := Peeked(w);
    if r.position == |r.buffer| {
      assert Whole(r) == r.buffer;
    }
    BufferInWhole(r);
  }

  /** With reads of at least `n` characters, a token this close is found however the reads lie. */
  predicate Near(p: nat, q: nat, n: nat) {
    q <= (if p < n then n else p) + n
  }

  /** It shows the token if the reads are clear or the token is near. */
  lemma PeekFinds(w: Window, n: nat)
    requires Valid(w) && Calm(w, false, n)
    requires Clear(w.pending) || Near(w.position, Spaces(Whole(w), w.position), n)
    ensures Peeked(w).position == Spaces(Whole(w), w.position)
  {
    SkipStops(w);
    var r := Skipped(w);
    SkipStops(r);
    if r.position < Spaces(Whole(w), w.position) {
      FillShowsRead(w);
      SpacesAreBlank(w.buffer, w.pending[0]);
    }
  }

  lemma SpacesAreBlank(buffer: string, read: string)
    ensures Spaces(buffer + read, |buffer|) == |buffer + read| ==> Blank(read)
  {
    assert forall i | 0 <= i < |read| :: (buffer + read)[|buffer| + i] == read[i];
  }

  // ---- decoding ----

  lemma SpaceDoesNotDecode(dec: Decoder, s: string, p: nat)
    requires IsJson(dec)
    requires p < |s| && IsSpace(s[p])
    ensures dec(s, p).Fail?
  {
    assert dec(s, p) == Decode(s, p);
  }

  lemma ObjectStartsWithBrace(dec: Decoder, s: string, p: nat)
    requires IsJson(dec)
    requires p < |s| && dec(s, p).Got?
    ensures dec(s, p).value.Obj? <==> s[p] == '{'
    ensures dec(s, p).value.Arr? <==> s[p] == '['
    ensures dec(s, p).value.Number? ==> DecodeNumber(s, p) == dec(s, p)
  {
    assert dec(s, p) == Decode(s, p);
  }

  /** A value decoded from the text read so far is that of the whole text, or a number cut short. */
  lemma DecodeSoFar(w: Window)
    requires Valid(w) && w.decode(w.buffer, w.position).Got?
    ensures var d, t := w.decode(w.buffer, w.position), Whole(w);
            && (w.decode(t, w.position) == d || (d.value.Number? && d.end < |t| && NumberGoesOn(t[d.end])))
  {
    assert w.decode(w.buffer, w.position) == Decode(w.buffer, w.position) && w.decode(Whole(w), w.position)
        == Decode(Whole(w), w.position);
    var d, t, p := w.decode(w.buffer, w.position), Whole(w), w.position;
    BufferInWhole(w);
    if Stops(t, d.end, d.value) {
      DecodeLocal(w.buffer, t, p);
    }
  }

  lemma {:induction false} DecodeFromIsRight(w: Window)
    requires Valid(w) && (w.eof ==> w.position == Spaces(Whole(w), w.position))
    ensures var t := Whole(w);
            var d := w.decode(t, Spaces(t, w.position));
            && (DecodedFrom(w).Some? ==>
                  var (v, r) := DecodedFrom(w).value;
                  d == Got(v, r.position) || (v.Number? && r.position < |t| && NumberGoesOn(t[r.position])))
            && (d.Got? && d.value.Obj? ==> DecodedFrom(w).Some? && DecodedFrom(w).value.0 == d.value
                                                           && DecodedFrom(w).value.1.position == d.end)
    decreases |w.pending|, !w.eof
  {
    var t, p := Whole(w), w.position;
    if w.decode(w.buffer, p).Got? {
      DecodeSoFar(w);
      if IsSpace(w.buffer[p]) {
        SpaceDoesNotDecode(w.decode, w.buffer, p);
        assert false;
      }
      BufferInWhole(w);
      assert t[p] == w.buffer[p] && Spaces(t, p) == p;
      ObjectStartsWithBrace(w.decode, w.buffer, p);
      if w.decode(t, p).Got? {
        ObjectStartsWithBrace(w.decode, t, p);
      }
    } else if w.eof {
      assert t == w.buffer;
    } else {
      var next := Skipped(Filled(w));
      SkipStops(Filled(w));
      if next.position >= |next.buffer| && next.eof {
        assert t == next.buffer;
      } else {
        DecodeFromIsRight(next);
      }
    }
  }

  lemma DecodeIsRight(w: Window)
    requires Valid(w)
    ensures var t := Whole(w);
            var d := w.decode(t, Spaces(t, w.position));
            && (DecodedValue(w).Some? ==>
                  var (v, r) := DecodedValue(w).value;
                  d == Got(v, r.position) || (v.Number? && r.position < |t| && NumberGoesOn(t[r.position])))
            && (d.Got? && d.value.Obj? ==> DecodedValue(w).Some? && DecodedValue(w).value.0 == d.value
                                                           && DecodedValue(w).value.1.position == d.end)
  {
    SkipStops(w);
    DecodeFromIsRight(Skipped(w));
  }

  // ---- arrays ----

  lemma PunctuationDoesNotDecode(dec: Decoder, s: string, p: nat)
    requires IsJson(dec)
    requires p < |s| && (s[p] == ',' || s[p] == ']' || s[p] == '}' || s[p] == ':')
    ensures dec(s, p).Fail?
  {
    assert dec(s, p) == Decode(s, p);
  }

  /** A decoded object is the value of the whole text at the next token. */
  lemma EntryIsRight(w: Window, at: Window)
    requires Valid(w) && at == Peeked(w) && DecodedValue(at).Some? && DecodedValue(at).value.0.Obj?
    ensures var t := Whole(w);
            var q := Spaces(t, w.position);
            && q < |t| && w.decode(t, q) == Got(DecodedValue(at).value.0, DecodedValue(at).value.1.position)
            && t[q] != ',' && t[q] != ']'
  {
    PeekStops(w);
    DecodeIsRight(at);
    var t := Whole(w);
    var q := Spaces(t, w.position);
    if t[q] == ']' || t[q] == ',' {
      PunctuationDoesNotDecode(w.decode, t, q);
    }
  }

  /** A character peeked at that is no white space is the next token. */
  lemma PeekedTokenIsRight(w: Window)
    requires Valid(w) && Peeked(w).position < |Peeked(w).buffer| && !IsSpace(Peeked(w).buffer[Peeked(w).position])
    ensures var t, at := Whole(w), Peeked(w);
            at.position == Spaces(t, w.position) < |t| && t[at.position] == at.buffer[at.position]
  {
    PeekStops(w);
    BufferInWhole(Peeked(w));
  }

  lemma ArrayAfterComma(w: Window)
    requires Valid(w) && Peeked(w).position < |Peeked(w).buffer| && Peeked(w).buffer[Peeked(w).position] == ','
    ensures ArrayEntries(w) == ArrayEntries(Past(Peeked(w)))
  {
  }

  lemma ArrayAfterEntry(w: Window, at: Window)
    requires Valid(w) && at == Peeked(w) && at.position < |at.buffer|
    requires at.buffer[at.position] != ',' && at.buffer[at.position] != ']'
    ensures ArrayEntries(w) == EntryAndMore(at)
  {
  }

  lemma ArrayInAfterEntry(dec: Decoder, t: string, p: nat, entry: Value, e: nat)
    requires p <= |t| && Spaces(t, p) < |t| && dec(t, Spaces(t, p)) == Got(entry, e) && entry.Obj?
    requires t[Spaces(t, p)] != ',' && t[Spaces(t, p)] != ']' && ArrayIn(dec, t, e).Some?
    ensures ArrayIn(dec, t, p) == Some(([entry] + ArrayIn(dec, t, e).value.0, ArrayIn(dec, t, e).value.1))
  {
  }

  lemma ArrayInAtSeparator(dec: Decoder, t: string, p: nat)
    requires p <= |t| && Spaces(t, p) < |t|
    ensures t[Spaces(t, p)] == ',' ==> ArrayIn(dec, t, p) == ArrayIn(dec, t, Spaces(t, p) + 1)
    ensures t[Spaces(t, p)] == ']' ==> ArrayIn(dec, t, p) == Some(([], Spaces(t, p) + 1))
  {
  }

  lemma ArrayAtEnd(w: Window)
    requires Valid(w) && Peeked(w).position < |Peeked(w).buffer| && Peeked(w).buffer[Peeked(w).position] == ']'
    ensures ArrayEntries(w) == Some(([], Past(Peeked(w))))
  {
  }

  /** However the text was cut, entries that the reader returns are those of the text. */
  lemma {:induction false} ArrayIsRight(w: Window)
    requires Valid(w) && ArrayEntries(w).Some?
    ensures ArrayIn(w.decode, Whole(w), w.position) == Some((ArrayEntries(w).value.0, ArrayEntries(w).value.1.position))
    decreases |Whole(w)| - w.position, 1
  {
    var at := Peeked(w);
    if at.buffer[at.position] == ']' {
      ArrayAtEnd(w);
      PeekedTokenIsRight(w);
      ArrayInAtSeparator(w.decode, Whole(w), w.position);
    } else if at.buffer[at.position] == ',' {
      ArrayAfterComma(w);
      PeekedTokenIsRight(w);
      CommaIsRight(w, Past(at));
    } else {
      ArrayAfterEntry(w, at);
      EntryAndMoreIsRight(w, at);
    }
  }

  lemma {:induction false} CommaIsRight(w: Window, next: Window)
    requires Valid(w) && Onward(w, next) && ArrayEntries(next).Some?
    requires Spaces(Whole(w), w.position) < |Whole(w)| && Whole(w)[Spaces(Whole(w), w.position)] == ','
    requires next.position == Spaces(Whole(w), w.position) + 1
    ensures ArrayIn(w.decode, Whole(w), w.position)
            == Some((ArrayEntries(next).value.0, ArrayEntries(next).value.1.position))
    decreases |Whole(w)| - w.position, 0
  {
    ArrayInAtSeparator(w.decode, Whole(w), w.position);
    ArrayIsRightFrom(next, w.decode, Whole(w), next.position);
  }

  lemma {:induction false} ArrayIsRightFrom(w: Window, dec: Decoder, t: string, p: nat)
    requires Valid(w) && w.decode == dec && Whole(w) == t && w.position == p && ArrayEntries(w).Some?
    ensures ArrayIn(dec, t, p) == Some((ArrayEntries(w).value.0, ArrayEntries(w).value.1.position))
    decreases |t| - p, 2
  {
    ArrayIsRight(w);
  }

  lemma {:induction false} EntryAndMoreIsRight(w: Window, at: Window)
    requires Valid(w) && at == Peeked(w) && EntryAndMore(at).Some?
    ensures ArrayIn(w.decode, Whole(w), w.position)
            == Some((EntryAndMore(at).value.0, EntryAndMore(at).value.1.position))
    decreases |Whole(w)| - w.position, 0
  {
    EntryIsRight(w, at);
    var (entry, after) := DecodedValue(at).value;
    ArrayIsRight(after);
    ArrayInAfterEntry(w.decode, Whole(w), w.position, entry, after.position);
  }

  /** In an array from `p` on, each comma and the closing bracket is near the token before it. */
  predicate Tight(dec: Decoder, t: string, p: nat, n: nat)
    requires p <= |t|
    decreases |t| - p
  {
    var q := Spaces(t, p);
    if q == |t| then true
    else if t[q] == ']' then Near(p, q, n)
    else if t[q] == ',' then Near(p, q, n) && Tight(dec, t, q + 1, n)
    else dec(t, q).Got? ==> Tight(dec, t, dec(t, q).end, n)
  }

  lemma SeparatorIsSeen(w: Window, n: nat)
    requires Valid(w) && Calm(w, false, n) && Spaces(Whole(w), w.position) < |Whole(w)|
    requires Clear(w.pending) || Near(w.position, Spaces(Whole(w), w.position), n)
    ensures var at, t := Peeked(w), Whole(w);
            at.position == Spaces(t, w.position) < |at.buffer| && at.buffer[at.position] == t[at.position]
  {
    PeekStops(w);
    PeekFinds(w, n);
  }

  /** An object at the next token is decoded, however much white space the peek has left. */
  lemma EntryIsSeen(w: Window)
    requires Valid(w) && w.decode(Whole(w), Spaces(Whole(w), w.position)).Got?
    requires w.decode(Whole(w), Spaces(Whole(w), w.position)).value.Obj?
    ensures var at, d := Peeked(w), w.decode(Whole(w), Spaces(Whole(w), w.position));
            && at.position < |at.buffer| && at.buffer[at.position] != ',' && at.buffer[at.position] != ']'
            && DecodedValue(at).Some? && DecodedValue(at).value.0 == d.value && DecodedValue(at).value.1.position
                == d.end
  {
    var at, t := Peeked(w), Whole(w);
    PeekStops(w);
    DecodeIsRight(at);
    ObjectStartsWithBrace(w.decode, t, Spaces(t, w.position));
  }

  predicate Favourable(w: Window, n: nat)
    requires Valid(w)
  {
    Calm(w, false, n) && (Clear(w.pending) || Tight(w.decode, Whole(w), w.position, n))
  }

  lemma TightAfter(dec: Decoder, t: string, p: nat, n: nat)
    requires p <= |t| && Tight(dec, t, p, n) && Spaces(t, p) < |t|
    ensures t[Spaces(t, p)] == ',' ==> Near(p, Spaces(t, p), n) && Tight(dec, t, Spaces(t, p) + 1, n)
    ensures t[Spaces(t, p)] == ']' ==> Near(p, Spaces(t, p), n)
    ensures t[Spaces(t, p)] != ',' && t[Spaces(t, p)] != ']' && dec(t, Spaces(t, p)).Got? ==>
              Tight(dec, t, dec(t, Spaces(t, p)).end, n)
  {
  }

  lemma FavourableAtSeparator(w: Window, n: nat)
    requires Valid(w) && Favourable(w, n) && Spaces(Whole(w), w.position) < |Whole(w)|
    requires Whole(w)[Spaces(Whole(w), w.position)] == ',' || Whole(w)[Spaces(Whole(w), w.position)] == ']'
    ensures var at, t := Peeked(w), Whole(w);
            && at.position == Spaces(t, w.position) < |at.buffer| && at.buffer[at.position] == t[at.position]
            && (t[at.position] == ',' ==> Favourable(Past(at), n))
  {
    CalmPeeked(w, Clear(w.pending), n);
    if !Clear(w.pending) {
      TightAfter(w.decode, Whole(w), w.position, n);
    }
    SeparatorIsSeen(w, n);
  }

  lemma FavourableAtEntry(w: Window, n: nat)
    requires Valid(w) && Favourable(w, n) && w.decode(Whole(w), Spaces(Whole(w), w.position)).Got?
    requires w.decode(Whole(w), Spaces(Whole(w), w.position)).value.Obj?
    ensures DecodedValue(Peeked(w)).Some? && Favourable(DecodedValue(Peeked(w)).value.1, n)
  {
    EntryIsSeen(w);
    CalmPeeked(w, Clear(w.pending), n);
    CalmDecoded(Peeked(w), Clear(w.pending), n);
    if !Clear(w.pending) {
      ObjectStartsWithBrace(w.decode, Whole(w), Spaces(Whole(w), w.position));
      TightAfter(w.decode, Whole(w), w.position, n);
    }
  }

  lemma ArrayInEntry(dec: Decoder, t: string, p: nat)
    requires p <= |t| && ArrayIn(dec, t, p).Some? && Spaces(t, p) < |t|
    requires t[Spaces(t, p)] != ',' && t[Spaces(t, p)] != ']'
    ensures var d := dec(t, Spaces(t, p)); d.Got? && d.value.Obj? && ArrayIn(dec, t, d.end).Some?
  {
  }

  /** Nothing is given up on when the reads are clear or the array is tight. */
  lemma {:induction false} ArrayIsComplete(w: Window, n: nat)
    requires Valid(w) && ArrayIn(w.decode, Whole(w), w.position).Some? && Favourable(w, n)
    ensures ArrayEntries(w).Some?
    decreases |Whole(w)| - w.position, 1
  {
    var t, q := Whole(w), Spaces(Whole(w), w.position);
    if t[q] == ']' {
      EndIsComplete(w, n);
    } else if t[q] == ',' {
      CommaFollows(w, Peeked(w), n);
      CommaIsComplete(w, Peeked(w), n);
    } else {
      ArrayInEntry(w.decode, t, w.position);
      EntryIsComplete(w, n);
    }
  }

  lemma EndIsComplete(w: Window, n: nat)
    requires Valid(w) && Favourable(w, n) && Spaces(Whole(w), w.position) < |Whole(w)|
    requires Whole(w)[Spaces(Whole(w), w.position)] == ']'
    ensures ArrayEntries(w).Some?
  {
    FavourableAtSeparator(w, n);
    ArrayAtEnd(w);
  }

  lemma CommaFollows(w: Window, at: Window, n: nat)
    requires Valid(w) && at == Peeked(w) && Favourable(w, n) && Spaces(Whole(w), w.position) < |Whole(w)|
    requires Whole(w)[Spaces(Whole(w), w.position)] == ',' && ArrayIn(w.decode, Whole(w), w.position).Some?
    ensures at.position < |at.buffer| && at.buffer[at.position] == ','
    ensures Favourable(Past(at), n) && ArrayIn(at.decode, Whole(at), at.position + 1).Some?
  {
    FavourableAtSeparator(w, n);
    ArrayInAtSeparator(w.decode, Whole(w), w.position);
  }

  lemma {:induction false} CommaIsComplete(w: Window, at: Window, n: nat)
    requires Valid(w) && at == Peeked(w) && at.position < |at.buffer| && at.buffer[at.position] == ','
    requires Favourable(Past(at), n) && ArrayIn(at.decode, Whole(at), at.position + 1).Some?
    ensures ArrayEntries(w).Some?
    decreases |Whole(w)| - w.position, 0
  {
    ArrayAfterComma(w);
    ArrayIsComplete(Past(at), n);
  }

  lemma {:induction false} EntryIsComplete(w: Window, n: nat)
    requires Valid(w) && Favourable(w, n)
    requires var d := w.decode(Whole(w), Spaces(Whole(w), w.position));
             d.Got? && d.value.Obj? && ArrayIn(w.decode, Whole(w), d.end).Some?
    ensures ArrayEntries(w).Some?
    decreases |Whole(w)| - w.position, 0
  {
    FavourableAtEntry(w, n);
    EntryIsSeen(w);
    ArrayIsComplete(DecodedValue(Peeked(w)).value.1, n);
    ArrayAfterEntry(w, Peeked(w));
  }

  // ---- reads that make the reader give up ----

  /** The text cut at `g` and again `n` characters later. */
  function CutAt(dec: Decoder, t: string, g: nat, n: nat, p: nat): (w: Window)
    requires IsJson(dec) && n > 0 && p <= g && g + n < |t|
    ensures Valid(w) && Whole(w) == t
  {
    JoinTwo(t[g..g + n], t[g + n..]);
    CompletedJoins(t[..g], [t[g..g + n], t[g + n..]]);
    assert t[..g] + (t[g..g + n] + t[g + n..]) == t;
    Window(t[..g], p, [t[g..g + n], t[g + n..]], false, dec)
  }

  lemma JoinTwo(a: string, b: string)
    ensures Join([a, b]) == a + b && Join([b]) == b
  {
    assert [a, b][1..] == [b] && [b][1..] == [];
    assert Join([b]) == b + Join([]);
  }

  lemma SpacesInFront(t: string, g: nat, p: nat)
    requires p <= g <= |t| && Spaces(t, p) < g
    ensures Spaces(t[..g], p) == Spaces(t, p)
  {
  }

  lemma DecodeInFront(dec: Decoder, t: string, g: nat, p: nat)
    requires IsJson(dec)
    requires p <= g <= |t| && dec(t, p).Got? && dec(t, p).end <= g && !dec(t, p).value.Number?
    ensures dec(t[..g], p) == dec(t, p)
  {
    assert dec(t, p) == Decode(t, p) && dec(t[..g], p) == Decode(t[..g], p);
    DecodeLocal(t, t[..g], p);
  }

  /** A token within the text read so far is peeked at without a further read. */
  lemma PeekInFront(dec: Decoder, t: string, g: nat, n: nat, p: nat)
    requires IsJson(dec) && n > 0 && p <= g && g + n < |t| && Spaces(t, p) < g
    ensures Peeked(CutAt(dec, t, g, n, p)) == CutAt(dec, t, g, n, Spaces(t, p))
  {
    SpacesInFront(t, g, p);
    SpacesInFront(t, g, Spaces(t, p));
  }

  lemma SpacesToEnd(t: string, p: nat, g: nat)
    requires p <= g <= |t| && forall i | p <= i < g :: IsSpace(t[i])
    ensures Spaces(t[..g], p) == g
  {
    assert t[..g][p..] == t[p..g];
  }

  /** Where only white space lies between `p` and the second cut, a peek gets no further than the
      second cut. */
  lemma PeekPastCut(dec: Decoder, t: string, g: nat, n: nat, p: nat)
    requires IsJson(dec) && n > 0 && p <= g && g + n < |t| && forall i | p <= i <= g + n :: IsSpace(t[i])
    ensures Peeked(CutAt(dec, t, g, n, p)) == Window(t, g + n, [], false, dec)
  {
    var w := CutAt(dec, t, g, n, p);
    SpacesToEnd(t, p, g);
    assert t[..g] + t[g..g + n] == t[..g + n] && w.pending[1..] == [t[g + n..]];
    assert Skipped(w) == Window(t[..g + n], g, [t[g + n..]], false, dec);
    SpacesToEnd(t, g, g + n);
    assert t[..g + n] + t[g + n..] == t && [t[g + n..]][1..] == [];
  }

  lemma DecodeAtSeparator(at: Window)
    requires Valid(at) && Spaces(Whole(at), at.position) < |Whole(at)|
    requires Whole(at)[Spaces(Whole(at), at.position)] == ',' || Whole(at)[Spaces(Whole(at), at.position)] == ']'
    ensures DecodedValue(at).None? || !DecodedValue(at).value.0.Obj?
  {
    DecodeIsRight(at);
    PunctuationDoesNotDecode(at.decode, Whole(at), Spaces(Whole(at), at.position));
  }

  /** Across a read that is all white space, neither a comma nor a closing bracket is recognised. */
  lemma CutSpacesMislead(dec: Decoder, t: string, g: nat, n: nat, p: nat)
    requires IsJson(dec) && n > 0 && p <= g <= |t| && g + n < Spaces(t, p) < |t|
    requires t[Spaces(t, p)] == ',' || t[Spaces(t, p)] == ']'
    ensures ArrayEntries(CutAt(dec, t, g, n, p)).None?
  {
    PeekPastCut(dec, t, g, n, p);
    SpacesOnward(t, p, g + n);
    assert IsSpace(t[g + n]);
    SpaceIsNoEntry(CutAt(dec, t, g, n, p), Peeked(CutAt(dec, t, g, n, p)));
  }

  lemma SpaceIsNoEntry(w: Window, at: Window)
    requires Valid(w) && at == Peeked(w) && at.position < |at.buffer| && IsSpace(at.buffer[at.position])
    requires Spaces(Whole(at), at.position) < |Whole(at)|
    requires Whole(at)[Spaces(Whole(at), at.position)] == ',' || Whole(at)[Spaces(Whole(at), at.position)] == ']'
    ensures ArrayEntries(w).None?
  {
    DecodeAtSeparator(at);
    ArrayAfterEntry(w, at);
  }

  lemma CommaInFront(dec: Decoder, t: string, g: nat, n: nat, p: nat)
    requires IsJson(dec) && n > 0 && p <= g && g + n < |t| && Spaces(t, p) < g && t[Spaces(t, p)] == ','
    ensures ArrayEntries(CutAt(dec, t, g, n, p)) == ArrayEntries(CutAt(dec, t, g, n, Spaces(t, p) + 1))
  {
    PeekInFront(dec, t, g, n, p);
    var w, at := CutAt(dec, t, g, n, p), CutAt(dec, t, g, n, Spaces(t, p));
    assert at.buffer[at.position] == ',' && Past(at) == CutAt(dec, t, g, n, Spaces(t, p) + 1);
    ArrayAfterComma(w);
  }

  lemma ValueInFront(dec: Decoder, t: string, g: nat, n: nat, q: nat)
    requires IsJson(dec) && n > 0 && q < g && g + n < |t| && !IsSpace(t[q]) && dec(t, q).Got?
    requires dec(t, q).end <= g && !dec(t, q).value.Number?
    ensures DecodedValue(CutAt(dec, t, g, n, q)) == Some((dec(t, q).value, CutAt(dec, t, g, n, dec(t, q).end)))
  {
    SpacesInFront(t, g, q);
    DecodeInFront(dec, t, g, q);
    assert Skipped(CutAt(dec, t, g, n, q)) == CutAt(dec, t, g, n, q);
  }

  lemma EntryInFront(dec: Decoder, t: string, g: nat, n: nat, p: nat)
    requires IsJson(dec) && n > 0 && p <= g && g + n < |t| && dec(t, Spaces(t, p)).Got?
    requires dec(t, Spaces(t, p)).value.Obj? && dec(t, Spaces(t, p)).end <= g
    requires ArrayEntries(CutAt(dec, t, g, n, dec(t, Spaces(t, p)).end)).None?
    ensures ArrayEntries(CutAt(dec, t, g, n, p)).None?
  {
    var q := Spaces(t, p);
    PeekInFront(dec, t, g, n, p);
    ValueInFront(dec, t, g, n, q);
    ObjectStartsWithBrace(dec, t, q);
    assert CutAt(dec, t, g, n, q).buffer[q] == '{';
    ArrayAfterEntry(CutAt(dec, t, g, n, p), CutAt(dec, t, g, n, q));
  }

  ghost predicate MisleadAt(dec: Decoder, t: string, g: nat, n: nat, p: nat)
    requires IsJson(dec) && n > 0
  {
    n <= g && p <= g && g + n < |t| && ArrayEntries(CutAt(dec, t, g, n, p)).None?
  }

  lemma LooseStep(dec: Decoder, t: string, p: nat, n: nat)
    requires p <= |t| && ArrayIn(dec, t, p).Some? && !Tight(dec, t, p, n)
    ensures var q := Spaces(t, p);
            && q < |t|
            && (t[q] == ']' ==> !Near(p, q, n))
            && (t[q] == ',' && Near(p, q, n) ==> !Tight(dec, t, q + 1, n) && ArrayIn(dec, t, q + 1).Some?)
            && (t[q] != ',' && t[q] != ']' ==>
                  dec(t, q).Got? && dec(t, q).value.Obj? && !Tight(dec, t, dec(t, q).end, n)
                  && ArrayIn(dec, t, dec(t, q).end).Some?)
  {
  }

  /** In an array that is not tight, two cuts `n` characters apart make the reader give up. */
  lemma {:induction false} LooseArrayGivesUp(dec: Decoder, t: string, p: nat, n: nat)
    requires IsJson(dec) && n > 0 && p <= |t| && ArrayIn(dec, t, p).Some? && !Tight(dec, t, p, n)
    ensures exists g :: MisleadAt(dec, t, g, n, p)
    decreases |t| - p
  {
    LooseStep(dec, t, p, n);
    var q := Spaces(t, p);
    if (t[q] == ',' || t[q] == ']') && !Near(p, q, n) {
      FarMisleads(dec, t, p, n, if p < n then n else p);
    } else if t[q] == ',' {
      LooseArrayGivesUp(dec, t, q + 1, n);
      var g :| MisleadAt(dec, t, g, n, q + 1);
      CommaMisleads(dec, t, g, n, p);
    } else {
      var e := dec(t, q).end;
      LooseArrayGivesUp(dec, t, e, n);
      var g :| MisleadAt(dec, t, g, n, e);
      EntryMisleads(dec, t, g, n, p);
    }
  }

  lemma FarMisleads(dec: Decoder, t: string, p: nat, n: nat, g: nat)
    requires IsJson(dec) && n > 0 && p <= |t| && g == (if p < n then n else p) && g + n < Spaces(t, p) < |t|
    requires t[Spaces(t, p)] == ',' || t[Spaces(t, p)] == ']'
    ensures MisleadAt(dec, t, g, n, p)
  {
    CutSpacesMislead(dec, t, g, n, p);
  }

  lemma CommaMisleads(dec: Decoder, t: string, g: nat, n: nat, p: nat)
    requires IsJson(dec) && n > 0 && p <= |t| && Spaces(t, p) < |t| && t[Spaces(t, p)] == ','
    requires MisleadAt(dec, t, g, n, Spaces(t, p) + 1)
    ensures MisleadAt(dec, t, g, n, p)
  {
    CommaInFront(dec, t, g, n, p);
  }

  lemma EntryMisleads(dec: Decoder, t: string, g: nat, n: nat, p: nat)
    requires IsJson(dec) && n > 0 && p <= |t| && dec(t, Spaces(t, p)).Got? && dec(t, Spaces(t, p)).value.Obj?
    requires MisleadAt(dec, t, g, n, dec(t, Spaces(t, p)).end)
    ensures MisleadAt(dec, t, g, n, p)
  {
    EntryInFront(dec, t, g, n, p);
  }
}
