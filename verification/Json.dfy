/** The JSON decoder: one value read from a given position of a text, as `raw_decode` does. */
module Json {
  import opened Wrappers

  /** Numbers and strings are kept as they are written. */
  datatype Value =
    | Null
    | Bool(truth: bool)
    | Constant(name: string)
    | Number(digits: string)
    | Str(text: string)
    | Arr(items: seq<Value>)
    | Obj(members: seq<(string, Value)>)

  /** A value and the position after it, or a decode error. */
  datatype Decoded = Fail | Got(value: Value, end: nat)

  predicate JsonSpace(c: char) {
    c == ' ' || c == '\t' || c == '\n' || c == '\r'
  }

  predicate Digit(c: char) {
    '0' <= c <= '9'
  }

  predicate Hex(c: char) {
    Digit(c) || 'a' <= c <= 'f' || 'A' <= c <= 'F'
  }

  /** The characters that can carry on a number which could also end before them. */
  predicate NumberGoesOn(c: char) {
    Digit(c) || c == '.' || c == 'e' || c == 'E'
  }

  /** The first position from `p` on that is not JSON white space. */
  function Blanks(s: string, p: nat): (q: nat)
    requires p <= |s|
    ensures p <= q <= |s| && (forall i | p <= i < q :: JsonSpace(s[i])) && (q < |s| ==> !JsonSpace(s[q]))
    decreases |s| - p
  {
    if p < |s| && JsonSpace(s[p]) then Blanks(s, p + 1) else p
  }

  /** The position after the next character that is not white space, if that is `c`. */
  function After(s: string, p: nat, c: char): (r: Option<nat>)
    requires p <= |s|
    ensures r.Some? ==> p < r.value <= |s|
  {
    var q := Blanks(s, p);
    if q < |s| && s[q] == c then Some(q + 1) else None
  }

  /** The position after the closing quote of a string whose opening quote is before `p`. */
  function StringEnd(s: string, p: nat): (r: Option<nat>)
    requires p <= |s|
    ensures r.Some? ==> p < r.value <= |s|
    decreases |s| - p
  {
    if p == |s| || s[p] < ' ' then None
    else if s[p] == '"' then Some(p + 1)
    else if s[p] != '\\' then StringEnd(s, p + 1)
    else if p + 1 < |s| && s[p + 1] in "\"\\/bfnrt" then StringEnd(s, p + 2)
    else if p + 5 < |s| && s[p + 1] == 'u' && Hex(s[p + 2]) && Hex(s[p + 3]) && Hex(s[p + 4]) && Hex(s[p + 5])
        then StringEnd(s, p + 6)
    else None
  }

  function Digits(s: string, p: nat): (q: nat)
    requires p <= |s|
    ensures p <= q <= |s| && (forall i | p <= i < q :: Digit(s[i])) && (q < |s| ==> !Digit(s[q]))
    decreases |s| - p
  {
    if p < |s| && Digit(s[p]) then Digits(s, p + 1) else p
  }

  function IntegerEnd(s: string, p: nat): (r: Option<nat>)
    requires p <= |s|
    ensures r.Some? ==> p < r.value <= |s|
  {
    var i := if p < |s| && s[p] == '-' then p + 1 else p;
    if i == |s| || !Digit(s[i]) then None
    else if s[i] == '0' then Some(i + 1)
    else Some(Digits(s, i + 1))
  }

  function FractionEnd(s: string, p: nat): (q: nat)
    requires p <= |s|
    ensures p <= q <= |s|
  {
    if p + 1 < |s| && s[p] == '.' && Digit(s[p + 1]) then Digits(s, p + 2) else p
  }

  function ExponentEnd(s: string, p: nat): (q: nat)
    requires p <= |s|
    ensures p <= q <= |s|
  {
    if p == |s| || (s[p] != 'e' && s[p] != 'E') then p else
      var i := if p + 1 < |s| && (s[p + 1] == '+' || s[p + 1] == '-') then p + 2 else p + 1;
      var q := Digits(s, i);
      if q > i then q else p
  }

  /** The longest number that starts at `p`. */
  function NumberEnd(s: string, p: nat): (r: Option<nat>)
    requires p <= |s|
    ensures r.Some? ==> p < r.value <= |s|
  {
    match IntegerEnd(s, p)
    case None => None
    case Some(i) => Some(ExponentEnd(s, FractionEnd(s, i)))
  }

  predicate ReadsWord(s: string, p: nat, word: string) {
    p + |word| <= |s| && s[p..p + |word|] == word
  }

  /** The word that a value starting with `c` must be, if any; `-` may also start a number. */
  function Word(c: char): (string, Value) {
    match c
    case 'n' => ("null", Null)
    case 't' => ("true", Bool(true))
    case 'f' => ("false", Bool(false))
    case 'N' => ("NaN", Constant("NaN"))
    case 'I' => ("Infinity", Constant("Infinity"))
    case '-' => ("-Infinity", Constant("-Infinity"))
    case _ => ("", Null)
  }

  function DecodeWord(s: string, p: nat): (r: Decoded)
    ensures r.Got? ==> p < r.end <= |s| && !r.value.Number? && !r.value.Obj?
  {
    if p >= |s| then Fail else
      var (word, value) := Word(s[p]);
      if word != "" && ReadsWord(s, p, word) then Got(value, p + |word|) else Fail
  }

  function DecodeString(s: string, p: nat): (r: Decoded)
    ensures r.Got? ==> p < r.end <= |s| && r.value.Str? && s[p] == '"'
  {
    if p >= |s| || s[p] != '"' then Fail else
      match StringEnd(s, p + 1)
      case None => Fail
      case Some(e) => Got(Str(s[p + 1..e - 1]), e)
  }

  function DecodeNumber(s: string, p: nat): (r: Decoded)
    requires p <= |s|
    ensures r.Got? ==> p < r.end <= |s| && r.value.Number?
  {
    match NumberEnd(s, p)
    case None => Fail
    case Some(e) => Got(Number(s[p..e]), e)
  }

  function Decode(s: string, p: nat): (r: Decoded)
    requires p <= |s|
    ensures r.Got? ==> p < r.end <= |s|
    decreases |s| - p, 0
  {
    if p == |s| then Fail
    else if s[p] == '"' then DecodeString(s, p)
    else if s[p] == '{' then
      (match After(s, p + 1, '}')
       case Some(e) => Got(Obj([]), e)
       case None => DecodeMembers(s, Blanks(s, p + 1)))
    else if s[p] == '[' then
      (match After(s, p + 1, ']')
       case Some(e) => Got(Arr([]), e)
       case None => DecodeItems(s, Blanks(s, p + 1)))
    else if DecodeWord(s, p).Got? then DecodeWord(s, p)
    else DecodeNumber(s, p)
  }

  /** The rest of an array from its next item on. */
  function DecodeItems(s: string, p: nat): (r: Decoded)
    requires p <= |s|
    ensures r.Got? ==> p < r.end <= |s| && r.value.Arr?
    decreases |s| - p, 1
  {
    match Decode(s, p)
    case Fail => Fail
    case Got(item, e) =>
      match After(s, e, ']')
      case Some(z) => Got(Arr([item]), z)
      case None =>
        match After(s, e, ',')
        case None => Fail
        case Some(z) =>
          match DecodeItems(s, Blanks(s, z))
          case Fail => Fail
          case Got(more, y) => Got(Arr([item] + more.items), y)
  }

  /** A member of an object: a string, a colon and a value; the end is that of the value. */
  function DecodeMember(s: string, p: nat): (r: Option<(string, Value, nat)>)
    requires p <= |s|
    ensures r.Some? ==> p < r.value.2 <= |s|
    decreases |s| - p, 1
  {
    match DecodeString(s, p)
    case Fail => None
    case Got(key, k) =>
      match After(s, k, ':')
      case None => None
      case Some(c) =>
        match Decode(s, Blanks(s, c))
        case Fail => None
        case Got(value, e) => Some((key.text, value, e))
  }

  /** The rest of an object from its next member on. */
  function DecodeMembers(s: string, p: nat): (r: Decoded)
    requires p <= |s|
    ensures r.Got? ==> p < r.end <= |s| && r.value.Obj?
    decreases |s| - p, 2
  {
    match DecodeMember(s, p)
    case None => Fail
    case Some((key, value, e)) =>
      match After(s, e, '}')
      case Some(z) => Got(Obj([(key, value)]), z)
      case None =>
        match After(s, e, ',')
        case None => Fail
        case Some(z) =>
          match DecodeMembers(s, Blanks(s, z))
          case Fail => Fail
          case Got(more, y) => Got(Obj([(key, value)] + more.members), y)
  }

  // ---- decoding looks no further than the value ----

  /** The texts agree up to position `n`. */
  predicate Same(s: string, t: string, n: nat) {
    n <= |s| && n <= |t| && forall i | 0 <= i < n :: s[i] == t[i]
  }

  /** In `t` a value at positions before `e` is not a number that could go on. */
  predicate Stops(t: string, e: nat, v: Value) {
    v.Number? && e < |t| ==> !NumberGoesOn(t[e])
  }

  lemma BlanksLocal(s: string, t: string, p: nat)
    requires p <= |s| && Blanks(s, p) < |s| && Same(s, t, Blanks(s, p) + 1)
    ensures p <= |t| && Blanks(t, p) == Blanks(s, p)
  {
  }

  lemma AfterLocal(s: string, t: string, p: nat, n: nat)
    requires p <= |s| && Blanks(s, p) < n && Same(s, t, n)
    ensures p <= |t| && Blanks(t, p) == Blanks(s, p) && forall c :: After(t, p, c) == After(s, p, c)
  {
    BlanksLocal(s, t, p);
  }

  lemma {:induction false} StringLocal(s: string, t: string, p: nat)
    requires p <= |s| && StringEnd(s, p).Some? && Same(s, t, StringEnd(s, p).value)
    ensures StringEnd(t, p) == StringEnd(s, p)
    decreases |s| - p
  {
    if s[p] == '"' {
    } else if s[p] != '\\' {
      StringLocal(s, t, p + 1);
    } else if s[p + 1] != 'u' {
      StringLocal(s, t, p + 2);
    } else {
      StringLocal(s, t, p + 6);
    }
  }

  lemma DigitsLocal(s: string, t: string, p: nat, e: nat)
    requires p <= |s| && Digits(s, p) <= e && Same(s, t, e)
    requires e < |t| ==> !NumberGoesOn(t[e])
    ensures Digits(t, p) == Digits(s, p)
  {
  }

  lemma NumberLocal(s: string, t: string, p: nat)
    requires p <= |s| && NumberEnd(s, p).Some? && Same(s, t, NumberEnd(s, p).value)
    requires NumberEnd(s, p).value < |t| ==> !NumberGoesOn(t[NumberEnd(s, p).value])
    ensures NumberEnd(t, p) == NumberEnd(s, p)
  {
    var e := NumberEnd(s, p).value;
    var i := IntegerEnd(s, p).value;
    IntegerLocal(s, t, p, e);
    FractionLocal(s, t, i, e);
    ExponentLocal(s, t, FractionEnd(s, i));
  }

  lemma IntegerLocal(s: string, t: string, p: nat, e: nat)
    requires p <= |s| && IntegerEnd(s, p).Some? && IntegerEnd(s, p).value <= e && Same(s, t, e)
    requires e < |t| ==> !NumberGoesOn(t[e])
    ensures IntegerEnd(t, p) == IntegerEnd(s, p)
  {
    var i := if s[p] == '-' then p + 1 else p;
    if s[i] != '0' {
      DigitsLocal(s, t, i + 1, e);
    }
  }

  lemma FractionLocal(s: string, t: string, p: nat, e: nat)
    requires p <= |s| && FractionEnd(s, p) <= e && Same(s, t, e)
    requires e < |t| ==> !NumberGoesOn(t[e])
    requires FractionEnd(s, p) == p && p < e ==> s[p] != '.'
    ensures FractionEnd(t, p) == FractionEnd(s, p)
  {
    if FractionEnd(s, p) > p {
      DigitsLocal(s, t, p + 2, e);
    }
  }

  lemma ExponentLocal(s: string, t: string, p: nat)
    requires p <= |s| && Same(s, t, ExponentEnd(s, p))
    requires ExponentEnd(s, p) < |t| ==> !NumberGoesOn(t[ExponentEnd(s, p)])
    ensures ExponentEnd(t, p) == ExponentEnd(s, p)
  {
    var e := ExponentEnd(s, p);
    if e > p {
      DigitsLocal(s, t, if s[p + 1] == '+' || s[p + 1] == '-' then p + 2 else p + 1, e);
    }
  }

  lemma WordLocal(s: string, t: string, p: nat)
    requires DecodeWord(s, p).Got? && Same(s, t, DecodeWord(s, p).end)
    ensures DecodeWord(t, p) == DecodeWord(s, p)
  {
    var e := DecodeWord(s, p).end;
    assert s[p] == t[p] && s[p..e] == t[p..e];
  }

  lemma QuotedLocal(s: string, t: string, p: nat)
    requires DecodeString(s, p).Got? && Same(s, t, DecodeString(s, p).end)
    ensures DecodeString(t, p) == DecodeString(s, p)
  {
    StringLocal(s, t, p + 1);
    var e := DecodeString(s, p).end;
    assert s[p + 1..e - 1] == t[p + 1..e - 1];
  }

  lemma ScalarLocal(s: string, t: string, p: nat)
    requires p < |s| && s[p] != '{' && s[p] != '['
    requires Decode(s, p).Got? && Same(s, t, Decode(s, p).end)
    requires Stops(t, Decode(s, p).end, Decode(s, p).value)
    ensures Decode(t, p) == Decode(s, p)
  {
    if s[p] == '"' {
      QuotedLocal(s, t, p);
    } else if DecodeWord(s, p).Got? {
      WordLocal(s, t, p);
    } else {
      NumberLocal(s, t, p);
      assert s[p..NumberEnd(s, p).value] == t[p..NumberEnd(s, p).value];
      NumberIsNoWord(t, p);
    }
  }

  lemma NumberIsNoWord(t: string, p: nat)
    requires p <= |t| && NumberEnd(t, p).Some?
    ensures DecodeWord(t, p).Fail?
  {
    assert ReadsWord(t, p, "-Infinity") ==> t[p + 1] == t[p..p + 9][1] == 'I';
  }

  /** A text that decodes to a value does so however it goes on after that value, except that a
      number may go on. In particular no proper prefix of an object decodes as an object. */
  lemma {:induction false} DecodeLocal(s: string, t: string, p: nat)
    requires p <= |s| && Decode(s, p).Got? && Same(s, t, Decode(s, p).end)
    requires Stops(t, Decode(s, p).end, Decode(s, p).value)
    ensures Decode(t, p) == Decode(s, p)
    decreases |s| - p, 0
  {
    if s[p] == '{' {
      ObjectLocal(s, t, p);
    } else if s[p] == '[' {
      ArrayLocal(s, t, p);
    } else {
      ScalarLocal(s, t, p);
    }
  }

  lemma {:induction false} ObjectLocal(s: string, t: string, p: nat)
    requires p < |s| && s[p] == '{' && Decode(s, p).Got? && Same(s, t, Decode(s, p).end)
    ensures Decode(t, p) == Decode(s, p)
    decreases |s| - p - 1, 3
  {
    AfterLocal(s, t, p + 1, Decode(s, p).end);
    if After(s, p + 1, '}').None? {
      MembersLocal(s, t, Blanks(s, p + 1));
    }
  }

  lemma {:induction false} ArrayLocal(s: string, t: string, p: nat)
    requires p < |s| && s[p] == '[' && Decode(s, p).Got? && Same(s, t, Decode(s, p).end)
    ensures Decode(t, p) == Decode(s, p)
    decreases |s| - p - 1, 3
  {
    AfterLocal(s, t, p + 1, Decode(s, p).end);
    if After(s, p + 1, ']').None? {
      ItemsLocal(s, t, Blanks(s, p + 1));
    }
  }

  lemma {:induction false} ItemsLocal(s: string, t: string, p: nat)
    requires p <= |s| && DecodeItems(s, p).Got? && Same(s, t, DecodeItems(s, p).end)
    ensures DecodeItems(t, p) == DecodeItems(s, p)
    decreases |s| - p, 1
  {
    var e := Decode(s, p).end;
    DecodeLocal(s, t, p);
    AfterLocal(s, t, e, DecodeItems(s, p).end);
    if After(s, e, ']').None? {
      var z := After(s, e, ',').value;
      ItemsLocal(s, t, Blanks(s, z));
      AfterLocal(s, t, z, DecodeItems(s, p).end);
    }
  }

  lemma {:induction false} MemberLocal(s: string, t: string, p: nat)
    requires p <= |s| && DecodeMember(s, p).Some?
    requires var (_, v, e) := DecodeMember(s, p).value; Same(s, t, e) && Stops(t, e, v)
    ensures DecodeMember(t, p) == DecodeMember(s, p)
    decreases |s| - p, 1
  {
    var k := DecodeString(s, p).end;
    var c := After(s, k, ':').value;
    QuotedLocal(s, t, p);
    AfterLocal(s, t, k, c);
    DecodeLocal(s, t, Blanks(s, c));
    BlanksLocal(s, t, c);
  }

  lemma {:induction false} MembersLocal(s: string, t: string, p: nat)
    requires p <= |s| && DecodeMembers(s, p).Got? && Same(s, t, DecodeMembers(s, p).end)
    ensures DecodeMembers(t, p) == DecodeMembers(s, p)
    decreases |s| - p, 2
  {
    var e := DecodeMember(s, p).value.2;
    MemberLocal(s, t, p);
    AfterLocal(s, t, e, DecodeMembers(s, p).end);
    if After(s, e, '}').None? {
      var z := After(s, e, ',').value;
      MembersLocal(s, t, Blanks(s, z));
      AfterLocal(s, t, z, DecodeMembers(s, p).end);
    }
  }

  /** Of an object, no proper prefix decodes: the reader cannot stop too early at an entry. */
  lemma PrefixOfObjectFails(t: string, p: nat, m: nat)
    requires p < |t| && t[p] == '{' && Decode(t, p).Got? && p <= m < Decode(t, p).end
    ensures Decode(t[..m], p).Fail?
  {
    if Decode(t[..m], p).Got? {
      DecodeLocal(t[..m], t, p);
    }
  }
}
