/** How far the reader has read at each point of an index, told from the text and the lengths of
    the reads alone, and which tokens it therefore misses and which numbers it cuts short. */
module StreamCuts {
  import opened Wrappers
  import opened Text
  import opened Json
  import opened StreamRules
  import opened StreamFacts

  /** The end of what was read so far and the lengths of the reads to come. */
  datatype Cuts = Cuts(end: nat, rest: seq<nat>)

  /** One more read. */
  function Once(c: Cuts): Cuts {
    if c.rest == [] then c else Cuts(c.end + c.rest[0], c.rest[1..])
  }

  /** As many reads as it takes to hold position `k`. */
  function Upto(c: Cuts, k: nat): Cuts
    decreases |c.rest|
  {
    if k < c.end || c.rest == [] then c else Upto(Once(c), k)
  }

  function Front(t: string, g: nat): string {
    if g <= |t| then t[..g] else t
  }

  /** As many reads as it takes until something decodes at `q`. */
  function Decodable(dec: Decoder, t: string, c: Cuts, q: nat): Cuts
    decreases |c.rest|
  {
    if dec(Front(t, c.end), q).Got? || c.rest == [] then c else Decodable(dec, t, Once(c), q)
  }

  /** A peek at the next token `q` makes two reads at most and shows white space if that does not
      get it there. */
  predicate Shown(c: Cuts, q: nat) {
    q <= Once(c).end
  }

  function AtPeek(c: Cuts, q: nat): Cuts {
    if Shown(c, q) then Upto(c, q) else Once(Once(c))
  }

  /** Decoding reads on until it starts at the next token `q`: it skips white space and makes a
      read, stops right after it, and fails there and makes one more if that is white space. */
  function Reach(c: Cuts, q: nat): Cuts
    decreases |c.rest|
  {
    if q < c.end || c.rest == [] then c else if q == c.end then Once(c) else Reach(Once(Once(c)), q)
  }

  /** What has been read when the value at `q` is decoded. */
  function ForValue(dec: Decoder, t: string, c: Cuts, q: nat): Cuts {
    Decodable(dec, t, Reach(c, q), q)
  }

  /** Looking for a colon skips white space once more than a peek. */
  predicate ColonShown(c: Cuts, q: nat) {
    q <= Once(Once(c)).end
  }

  // ---- what gets through: arrays ----

  /** The reads made for an array, if each comma and the closing bracket is shown. */
  function ArrayCuts(dec: Decoder, t: string, p: nat, c: Cuts): Option<Cuts>
    requires p <= |t|
    decreases |t| - p
  {
    var q := Spaces(t, p);
    if q == |t| then None
    else if t[q] == ']' then if Shown(c, q) then Some(AtPeek(c, q)) else None
    else if t[q] == ',' then if Shown(c, q) then ArrayCuts(dec, t, q + 1, AtPeek(c, q)) else None
    else
      match dec(t, q)
      case Fail => None
      case Got(_, e) => ArrayCuts(dec, t, e, ForValue(dec, t, AtPeek(c, q), q))
  }

  // ---- what gets through: objects ----

  /** The members from `p` on get through: the closing brace, each colon and each comma is shown, no
      value is decoded from a text that ends within it (only a number can be, and then it is cut
      short), and a `skills` list whose bracket is not shown, which is then decoded as a whole, is
      JSON and not followed by a comma. */
  predicate ObjectPasses(dec: Decoder, t: string, p: nat, c: Cuts)
    requires p <= |t|
    decreases |t| - p, 3
  {
    var q := Spaces(t, p);
    q < |t| && if t[q] == '}' then Shown(c, q) else MemberPasses(dec, t, q, AtPeek(c, q))
  }

  predicate MemberPasses(dec: Decoder, t: string, q: nat, c: Cuts)
    requires q <= |t|
    decreases |t| - q, 2
  {
    match dec(t, q)
    case Fail => false
    case Got(key, k) =>
      match ColonIn(t, k)
      case None => false
      case Some(p) =>
        var c' := ForValue(dec, t, c, q);
        ColonShown(c', p - 1) && ValuePasses(dec, if key.Str? then key.text else "", t, p, Upto(c', p - 1))
  }

  predicate ValuePasses(dec: Decoder, key: string, t: string, p: nat, c: Cuts)
    requires p <= |t|
    decreases |t| - p, 2
  {
    if IsSkillsKey(key) then SkillsPasses(dec, t, p, c) else OtherPasses(dec, t, p, c)
  }

  /** The value at `v` that is decoded after the reads `c` is the one that stands there. */
  predicate WholeValue(dec: Decoder, t: string, v: nat, c: Cuts) {
    dec(Front(t, c.end), v) == dec(t, v)
  }

  predicate OtherPasses(dec: Decoder, t: string, p: nat, c: Cuts)
    requires p <= |t|
    decreases |t| - p, 1
  {
    var v := Spaces(t, p);
    match dec(t, v)
    case Fail => false
    case Got(_, e) =>
      var c' := ForValue(dec, t, c, v);
      WholeValue(dec, t, v, c') && RestPasses(dec, t, e, c')
  }

  predicate SkillsPasses(dec: Decoder, t: string, p: nat, c: Cuts)
    requires p <= |t|
    decreases |t| - p, 1
  {
    var v := Spaces(t, p);
    v < |t| && if t[v] == '[' && Shown(c, v) then ArrayPasses(dec, t, v + 1, AtPeek(c, v))
               else WholePasses(dec, t, v, AtPeek(c, v))
  }

  predicate ArrayPasses(dec: Decoder, t: string, p: nat, c: Cuts)
    requires p <= |t|
    decreases |t| - p, 1
  {
    match ArrayIn(dec, t, p)
    case None => false
    case Some((_, e)) =>
      match ArrayCuts(dec, t, p, c)
      case None => false
      case Some(c') => RestPasses(dec, t, e, c')
  }

  /** A `skills` value that is decoded as a whole. */
  predicate WholePasses(dec: Decoder, t: string, v: nat, c: Cuts)
    requires v <= |t|
    decreases |t| - v, 0
  {
    match dec(t, v)
    case Fail => false
    case Got(_, e) =>
      var c' := ForValue(dec, t, c, v);
      WholeValue(dec, t, v, c') && ObjectIn(dec, t, e).Some? && ObjectPasses(dec, t, e, c')
  }

  predicate RestPasses(dec: Decoder, t: string, p: nat, c: Cuts)
    requires p <= |t|
    decreases |t| - p, 4
  {
    var q := Spaces(t, p);
    q < |t| && if t[q] == ',' then Shown(c, q) && ObjectPasses(dec, t, q + 1, AtPeek(c, q))
               else ObjectPasses(dec, t, q, AtPeek(c, q))
  }

  // ---- the reader makes just these reads ----

  function Lengths(pending: seq<string>): (ls: seq<nat>)
    ensures |ls| == |pending|
  {
    seq(|pending|, i requires 0 <= i < |pending| => |pending[i]|)
  }

  function CutsOf(w: Window): Cuts {
    Cuts(|w.buffer|, Lengths(w.pending))
  }

  lemma CutsFilled(w: Window)
    requires Valid(w)
    ensures CutsOf(Filled(w)) == Once(CutsOf(w))
  {
    if w.pending != [] {
      assert Lengths(w.pending)[1..] == Lengths(w.pending[1..]);
    }
  }

  lemma AllRead(w: Window)
    ensures w.pending == [] ==> Whole(w) == w.buffer
  {
  }

  /** Where a skip stops and what it reads, told from the next token `q`. */
  lemma SkipReads(w: Window, q: nat)
    requires Valid(w) && q == Spaces(Whole(w), w.position) < |Whole(w)|
    ensures var r := Skipped(w);
            if q < |w.buffer| then r == w.(position := q)
            else r.position == |w.buffer| < |r.buffer| && CutsOf(r) == Once(CutsOf(w)) && !r.eof && r.position <= q
  {
    SpacesOfWhole(w);
    AllRead(w);
    SkipStops(w);
    CutsFilled(w.(position := Spaces(w.buffer, w.position)));
  }

  /** What a peek shows and what it reads. */
  lemma PeekReads(w: Window, at: Window)
    requires Valid(w) && at == Peeked(w) && Spaces(Whole(w), w.position) < |Whole(w)|
    ensures var q := Spaces(Whole(w), w.position);
            && Onward(w, at) && at.position <= q == Spaces(Whole(at), at.position) && at.position < |at.buffer|
            && at.buffer[at.position] == Whole(w)[at.position]
            && (Shown(CutsOf(w), q) <==> at.position == q)
            && (!Shown(CutsOf(w), q) ==> IsSpace(at.buffer[at.position]))
            && CutsOf(at) == AtPeek(CutsOf(w), q)
  {
    var q, r := Spaces(Whole(w), w.position), Skipped(w);
    PeekStops(w);
    BufferInWhole(at);
    SkipReads(w, q);
    SkipStops(w);
    SkipReads(r, q);
    UptoSteps(CutsOf(w), q);
  }

  lemma UptoSteps(c: Cuts, q: nat)
    ensures Upto(c, q) == if q < c.end then c else if q < Once(c).end then Once(c) else Upto(Once(Once(c)), q)
    ensures q < c.end ==> Upto(c, q) == c
  {
    assert c.rest != [] ==> Upto(c, q) == if q < c.end then c else Upto(Once(c), q);
  }

  // ---- decoding ----

  /** Decoding that starts at the token. */
  lemma {:induction false} DecodeReads(w: Window)
    requires Valid(w) && w.position < |w.buffer| && !IsSpace(w.buffer[w.position])
    ensures DecodesAs(w, w.position, CutsOf(w), DecodedFrom(w))
    decreases |w.pending|, !w.eof
  {
    BufferInWhole(w);
    assert Front(Whole(w), |w.buffer|) == w.buffer;
    if w.decode(w.buffer, w.position).Fail? {
      AllRead(w);
      if !w.eof {
        var next := Skipped(Filled(w));
        BufferInWhole(Filled(w));
        assert Filled(w).buffer[w.position] == w.buffer[w.position];
        assert next == Filled(w);
        CutsFilled(w);
        DecodeReads(next);
      }
    }
  }

  /** What decoding comes to if it starts at the value `q` after the reads `c`: it succeeds if there
      is a value, and gives what the text read by then has there. */
  ghost predicate DecodesAs(w: Window, q: nat, c: Cuts, result: Option<(Value, Window)>) {
    var c' := Decodable(w.decode, Whole(w), c, q);
    && (w.decode(Whole(w), q).Got? ==> result.Some?)
    && (result.Some? ==>
          var (value, r) := result.value;
          Valid(r) && CutsOf(r) == c' && w.decode(Front(Whole(w), c'.end), q) == Got(value, r.position))
  }

  /** Decoding that starts on white space before the token. */
  lemma {:induction false} DecodeReadsOn(w: Window, q: nat)
    requires Valid(w) && w.position < q == Spaces(Whole(w), w.position) < |Whole(w)|
    requires w.position < |w.buffer| && !w.eof
    ensures DecodesAs(w, q, Reach(Once(CutsOf(w)), q), DecodedFrom(w))
    decreases |w.pending|
  {
    BufferInWhole(w);
    assert IsSpace(Whole(w)[w.position]);
    SpaceDoesNotDecode(w.decode, w.buffer, w.position);
    var filled := Filled(w);
    var next := Skipped(filled);
    CutsFilled(w);
    SkipReads(filled, q);
    AllRead(w);
    StartsOnToken(next, q);
    assert DecodedFrom(w) == DecodedFrom(next);
    if next.position == q {
      DecodeReads(next);
    } else {
      DecodeReadsOn(next, q);
    }
  }

  lemma StartsOnToken(w: Window, q: nat)
    requires Valid(w) && w.position <= q == Spaces(Whole(w), w.position) < |Whole(w)| && w.position < |w.buffer|
    ensures w.position == q ==> !IsSpace(w.buffer[q])
    ensures Spaces(Whole(w), w.position) == q
  {
    BufferInWhole(w);
  }

  /** What decoding gives at the next token, and with which reads. */
  lemma ValueReads(w: Window)
    requires Valid(w) && Spaces(Whole(w), w.position) < |Whole(w)|
    ensures var q := Spaces(Whole(w), w.position);
            DecodesAs(w, q, Reach(CutsOf(w), q), DecodedValue(w))
  {
    var q, r := Spaces(Whole(w), w.position), Skipped(w);
    SkipReads(w, q);
    SkipStops(w);
    StartsOnToken(r, q);
    AllRead(w);
    if r.position == q {
      DecodeReads(r);
    } else {
      DecodeReadsOn(r, q);
    }
  }

  /** A decoded value is the one that stands there, or a number that the next character would
      carry on. */
  lemma WholeOrCut(w: Window)
    requires Valid(w) && DecodedValue(w).Some?
    ensures var t := Whole(w);
            var (value, r) := DecodedValue(w).value;
            && Onward(w, r) && w.position < r.position
            && (w.decode(t, Spaces(t, w.position)) == Got(value, r.position)
                || (value.Number? && r.position < |t| && NumberGoesOn(t[r.position])))
  {
    DecodeIsRight(w);
  }

  // ---- clear reads ----

  /** With clear reads every token is shown. */
  lemma ClearShows(w: Window)
    requires Valid(w) && Clear(w.pending) && Spaces(Whole(w), w.position) < |Whole(w)|
    ensures Shown(CutsOf(w), Spaces(Whole(w), w.position))
  {
    PeekFinds(w, 0);
    PeekReads(w, Peeked(w));
  }
}
