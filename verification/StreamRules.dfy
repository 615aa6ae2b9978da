/** What the streaming reader of a skills index computes, step by step, and what it should: the
    entries of the whole text. A window is the text read so far with the reads still to come. */
module StreamRules {
  import opened Wrappers
  import opened Text
  import opened Json

  /** A decoder of one value at a position of a text. */
  type Decoder = f: (string, nat) -> Decoded | Bounded(f) witness (s: string, p: nat) => Fail

  ghost predicate Bounded(f: (string, nat) -> Decoded) {
    forall s: string, p: nat :: f(s, p).Got? ==> p < f(s, p).end <= |s|
  }

  /** The decoder is the JSON decoder. */
  ghost predicate IsJson(dec: Decoder) {
    forall s: string, p: nat {:trigger Decode(s, p)} :: p <= |s| ==> dec(s, p) == Decode(s, p)
  }

  datatype Window = Window(buffer: string, position: nat, pending: seq<string>, eof: bool, decode: Decoder)

  /** An empty read would be the end of the file, so every read that comes holds something. */
  ghost predicate Valid(w: Window) {
    IsJson(w.decode) && w.position <= |w.buffer| && (w.eof ==> w.pending == [])
        && forall i | 0 <= i < |w.pending| :: w.pending[i] != ""
  }

  /** The buffer once all reads have come. */
  function Completed(buffer: string, pending: seq<string>): (t: string)
    ensures |buffer| <= |t|
    decreases |pending|
  {
    if pending == [] then buffer else Completed(buffer + pending[0], pending[1..])
  }

  function Whole(w: Window): string {
    Completed(w.buffer, w.pending)
  }

  type Entries = seq<Value>

  /** The first position from `p` on that is not white space to `str.isspace`. */
  function Spaces(s: string, p: nat): (q: nat)
    requires p <= |s|
    ensures p <= q <= |s| && (forall i | p <= i < q :: IsSpace(s[i])) && (q < |s| ==> !IsSpace(s[q]))
    decreases |s| - p
  {
    if p < |s| && IsSpace(s[p]) then Spaces(s, p + 1) else p
  }

  // ---- how the cuts may lie ----

  /** No read that is all white space comes directly before one that starts with white space. */
  predicate Clear(pending: seq<string>) {
    forall i | 0 < i < |pending| :: Blank(pending[i - 1]) && pending[i] != "" ==> !IsSpace(pending[i][0])
  }

  /** Every read but the last holds at least `n` characters. */
  predicate LongReads(pending: seq<string>, n: nat) {
    forall i | 0 <= i < |pending| - 1 :: |pending[i]| >= n
  }

  /** What a step keeps of a window while it moves on. */
  ghost predicate Onward(w: Window, r: Window) {
    Valid(r) && Whole(r) == Whole(w) && r.decode == w.decode && w.position <= r.position
  }

  // ---- the steps of the reader ----

  function Filled(w: Window): (r: Window)
    requires Valid(w)
    ensures Onward(w, r) && r.position == w.position
    ensures !w.eof ==> |r.pending| < |w.pending| || (r.eof && r.buffer == w.buffer && r.pending == w.pending)
  {
    if w.eof then w
    else if w.pending == [] then w.(eof := true)
    else
      Window(w.buffer + w.pending[0], w.position, w.pending[1..], false, w.decode)
  }

  /** Skipping stops right after a fill, so it may stop on white space of what was just read. */
  function Skipped(w: Window): (r: Window)
    requires Valid(w)
    ensures Onward(w, r) && |r.pending| <= |w.pending| && (w.eof ==> r.eof)
    ensures r.position == |r.buffer| ==> r.eof
  {
    var q := Spaces(w.buffer, w.position);
    if q < |w.buffer| then w.(position := q) else Filled(w.(position := q))
  }

  function DecodedFrom(w: Window): (r: Option<(Value, Window)>)
    requires Valid(w)
    ensures r.Some? ==> Onward(w, r.value.1) && w.position < r.value.1.position
    decreases |w.pending|, !w.eof
  {
    match w.decode(w.buffer, w.position)
    case Got(v, e) => Some((v, w.(position := e)))
    case Fail =>
      if w.eof then None else
        var next := Skipped(Filled(w));
        if next.position >= |next.buffer| && next.eof then None else DecodedFrom(next)
  }

  function DecodedValue(w: Window): (r: Option<(Value, Window)>)
    requires Valid(w)
    ensures r.Some? ==> Onward(w, r.value.1) && w.position < r.value.1.position
  {
    DecodedFrom(Skipped(w))
  }

  /** The window with its position on the character that `_peek` returns after a skip, if any. */
  function Peeked(w: Window): (r: Window)
    requires Valid(w)
    ensures Onward(w, r) && (r.position == |r.buffer| ==> r.eof)
  {
    Skipped(Skipped(w))
  }

  function Past(w: Window): (r: Window)
    requires Valid(w) && w.position < |w.buffer|
    ensures Onward(w, r) && w.position < r.position
  {
    w.(position := w.position + 1)
  }

  function ArrayEntries(w: Window): (r: Option<(Entries, Window)>)
    requires Valid(w)
    ensures r.Some? ==> Onward(w, r.value.1) && w.position < r.value.1.position
    decreases |Whole(w)| - w.position, 1
  {
    var at := Peeked(w);
    if at.position == |at.buffer| then None
    else if at.buffer[at.position] == ']' then Some(([], Past(at)))
    else if at.buffer[at.position] == ',' then ArrayEntries(Past(at))
    else EntryAndMore(at)
  }

  function EntryAndMore(at: Window): (r: Option<(Entries, Window)>)
    requires Valid(at)
    ensures r.Some? ==> Onward(at, r.value.1) && at.position < r.value.1.position
    decreases |Whole(at)| - at.position, 0
  {
    match DecodedValue(at)
    case None => None
    case Some((entry, after)) =>
      if !entry.Obj? then None else
        match ArrayEntries(after)
        case None => None
        case Some((more, end)) => Some(([entry] + more, end))
  }

  predicate AllObjects(items: seq<Value>) {
    forall i | 0 <= i < |items| :: items[i].Obj?
  }

  function HexDigit(c: char): int {
    if c <= '9' then c as int - 48 else if c <= 'F' then c as int - 55 else c as int - 87
  }

  /** The code units that a string stands for once its escapes are replaced. */
  function Units(s: string): seq<int> {
    if s == "" then []
    else if s[0] != '\\' || |s| == 1 then [s[0] as int] + Units(s[1..])
    else if s[1] == 'u' && |s| >= 6 then
      [HexDigit(s[2]) * 4096 + HexDigit(s[3]) * 256 + HexDigit(s[4]) * 16 + HexDigit(s[5])] + Units(s[6..])
    else
      [match s[1] case 'b' => 8 case 'f' => 12 case 'n' => 10 case 'r' => 13 case 't' => 9 case c => c as int]
          + Units(s[2..])
  }

  /** The code units of `skills`. */
  const SKILLS: seq<int> := [115, 107, 105, 108, 108, 115]

  predicate IsSkillsKey(key: string) {
    Units(key) == SKILLS
  }

  /** From a key of the top-level object to its colon and past it. */
  function PastColon(w: Window): (r: Option<Window>)
    requires Valid(w)
    ensures r.Some? ==> Onward(w, r.value) && w.position < r.value.position
  {
    var at := Peeked(w);
    if at.position < |at.buffer| && at.buffer[at.position] == ':' then Some(Past(at))
    else
      var again := Skipped(at);
      var last := if again.position >= |again.buffer| then Skipped(Filled(again)) else again;
      if last.position >= |last.buffer| || last.buffer[last.position] != ':' then None else Some(Past(last))
  }

  function ObjectEntries(w: Window): (r: Option<Entries>)
    requires Valid(w)
    decreases |Whole(w)| - w.position, 3
  {
    var at := Peeked(w);
    if at.position == |at.buffer| then None
    else if at.buffer[at.position] == '}' then Some([])
    else MemberEntries(at)
  }

  function MemberEntries(at: Window): (r: Option<Entries>)
    requires Valid(at)
    decreases |Whole(at)| - at.position, 2
  {
    match DecodedValue(at)
    case None => None
    case Some((key, after)) =>
      if !key.Str? then None else
        match PastColon(after)
        case None => None
        case Some(colon) => ValueEntries(key.text, colon)
  }

  function ValueEntries(key: string, w: Window): (r: Option<Entries>)
    requires Valid(w)
    decreases |Whole(w)| - w.position, 2
  {
    if IsSkillsKey(key) then SkillsEntries(w) else OtherEntries(w)
  }

  function OtherEntries(w: Window): (r: Option<Entries>)
    requires Valid(w)
    decreases |Whole(w)| - w.position, 1
  {
    match DecodedValue(w)
    case None => None
    case Some((_, end)) => MembersGoOn(end)
  }

  /** The value of the `skills` member and what follows it. */
  function SkillsEntries(w: Window): (r: Option<Entries>)
    requires Valid(w)
    decreases |Whole(w)| - w.position, 1
  {
    var at := Peeked(w);
    if at.position == |at.buffer| then None
    else if at.buffer[at.position] == '[' then SkillsArray(Past(at))
    else SkillsValue(at)
  }

  function SkillsArray(w: Window): (r: Option<Entries>)
    requires Valid(w)
    decreases |Whole(w)| - w.position, 1
  {
    match ArrayEntries(w)
    case None => None
    case Some((entries, end)) =>
      match MembersGoOn(end)
      case None => None
      case Some(more) => Some(entries + more)
  }

  function SkillsValue(at: Window): (r: Option<Entries>)
    requires Valid(at)
    decreases |Whole(at)| - at.position, 0
  {
    match DecodedValue(at)
    case None => None
    case Some((value, end)) =>
      if value.Arr? && !AllObjects(value.items) then None else
        match ObjectEntries(end)
        case None => None
        case Some(more) => Some((if value.Arr? then value.items else []) + more)
  }

  /** After a member: a comma is passed, a closing brace ends the object, and anything else is
      left for the next round. */
  function MembersGoOn(w: Window): (r: Option<Entries>)
    requires Valid(w)
    decreases |Whole(w)| - w.position, 4
  {
    var at := Peeked(w);
    if at.position < |at.buffer| && at.buffer[at.position] == ',' then ObjectEntries(Past(at))
    else if at.position < |at.buffer| && at.buffer[at.position] == '}' then Some([])
    else ObjectEntries(at)
  }

  function Unread(dec: Decoder, pending: seq<string>): Window {
    Window("", 0, pending, false, dec)
  }

  function TopLevelEntries(w: Window): (r: Option<Entries>)
    requires Valid(w)
  {
    var at := Peeked(Filled(w));
    if at.position == |at.buffer| then None else IndexEntries(at)
  }

  function IndexEntries(at: Window): (r: Option<Entries>)
    requires Valid(at) && at.position < |at.buffer|
  {
    if at.buffer[at.position] == '[' then
      (match ArrayEntries(Past(at))
       case None => None
       case Some((entries, _)) => Some(entries))
    else if at.buffer[at.position] == '{' then ObjectEntries(Past(at))
    else None
  }

  // ---- the same for a text that lies there as a whole ----

  /** The entries of an array from `p` on and the position after its closing bracket. */
  function ArrayIn(dec: Decoder, t: string, p: nat): (r: Option<(Entries, nat)>)
    requires p <= |t|
    ensures r.Some? ==> p < r.value.1 <= |t|
    decreases |t| - p
  {
    var q := Spaces(t, p);
    if q == |t| then None
    else if t[q] == ']' then Some(([], q + 1))
    else if t[q] == ',' then ArrayIn(dec, t, q + 1)
    else
      match dec(t, q)
      case Fail => None
      case Got(entry, e) =>
        if !entry.Obj? then None else
          match ArrayIn(dec, t, e)
          case None => None
          case Some((more, end)) => Some(([entry] + more, end))
  }

  function ObjectIn(dec: Decoder, t: string, p: nat): (r: Option<Entries>)
    requires p <= |t|
    decreases |t| - p, 3
  {
    var q := Spaces(t, p);
    if q == |t| then None
    else if t[q] == '}' then Some([])
    else MemberIn(dec, t, q)
  }

  function MemberIn(dec: Decoder, t: string, q: nat): (r: Option<Entries>)
    requires q <= |t|
    decreases |t| - q, 2
  {
    match dec(t, q)
    case Fail => None
    case Got(key, k) =>
      if !key.Str? then None else
        match ColonIn(t, k)
        case None => None
        case Some(c) => ValueIn(dec, key.text, t, c)
  }

  /** The position after the colon that is the next token, if it is one. */
  function ColonIn(t: string, p: nat): (r: Option<nat>)
    requires p <= |t|
    ensures r.Some? ==> p < r.value <= |t|
  {
    var c := Spaces(t, p);
    if c < |t| && t[c] == ':' then Some(c + 1) else None
  }

  function ValueIn(dec: Decoder, key: string, t: string, p: nat): (r: Option<Entries>)
    requires p <= |t|
    decreases |t| - p, 2
  {
    if IsSkillsKey(key) then SkillsIn(dec, t, p) else OtherIn(dec, t, p)
  }

  function OtherIn(dec: Decoder, t: string, p: nat): (r: Option<Entries>)
    requires p <= |t|
    decreases |t| - p, 1
  {
    match dec(t, Spaces(t, p))
    case Fail => None
    case Got(_, e) => GoesOnIn(dec, t, e)
  }

  /** A value other than an array is passed over, but then no comma may follow it. */
  function SkillsIn(dec: Decoder, t: string, p: nat): (r: Option<Entries>)
    requires p <= |t|
    decreases |t| - p, 1
  {
    var v := Spaces(t, p);
    if v == |t| then None
    else if t[v] == '[' then SkillsArrayIn(dec, t, v + 1)
    else SkillsValueIn(dec, t, v)
  }

  function SkillsArrayIn(dec: Decoder, t: string, p: nat): (r: Option<Entries>)
    requires p <= |t|
    decreases |t| - p, 0
  {
    match ArrayIn(dec, t, p)
    case None => None
    case Some((entries, e)) =>
      match GoesOnIn(dec, t, e)
      case None => None
      case Some(more) => Some(entries + more)
  }

  function SkillsValueIn(dec: Decoder, t: string, v: nat): (r: Option<Entries>)
    requires v <= |t|
    decreases |t| - v, 0
  {
    match dec(t, v)
    case Fail => None
    case Got(_, e) => ObjectIn(dec, t, e)
  }

  function GoesOnIn(dec: Decoder, t: string, p: nat): (r: Option<Entries>)
    requires p <= |t|
    decreases |t| - p, 4
  {
    var q := Spaces(t, p);
    if q < |t| && t[q] == ',' then ObjectIn(dec, t, q + 1)
    else if q < |t| && t[q] == '}' then Some([])
    else ObjectIn(dec, t, p)
  }

  /** The entries of a skills index. */
  function EntriesIn(dec: Decoder, t: string): (r: Option<Entries>) {
    var q := Spaces(t, 0);
    if q == |t| then None else IndexIn(dec, t, q)
  }

  function IndexIn(dec: Decoder, t: string, q: nat): (r: Option<Entries>)
    requires q < |t|
  {
    if t[q] == '[' then
      (match ArrayIn(dec, t, q + 1)
       case None => None
       case Some((entries, _)) => Some(entries))
    else if t[q] == '{' then ObjectIn(dec, t, q + 1)
    else None
  }
}
