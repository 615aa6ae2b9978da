/** What the reader takes from a text that is JSON, told from the decoded value, and when that is
    what the marketplace would take from the value itself. */
module StreamMeaning {
  import opened Wrappers
  import opened Text
  import opened Json
  import opened StreamRules
  import opened StreamFacts
  import opened StreamObjects

  // ---- from the decoded value ----

  function Objects(items: seq<Value>): Entries {
    if items == [] then []
    else (if items[0].Obj? then [items[0]] else []) + Objects(items[1..])
  }

  /** The value of a key in the dictionary of the members: the last one counts. */
  function LastSkills(members: seq<(string, Value)>): Option<Value> {
    if members == [] then None
    else
      var later := LastSkills(members[1..]);
      if later.None? && IsSkillsKey(members[0].0) then Some(members[0].1) else later
  }

  /** `_coerce_index_entries`: the objects of a list, or of the list under `skills`. */
  function Coerced(value: Value): Entries {
    match value
    case Arr(items) => Objects(items)
    case Obj(members) =>
      var skills := LastSkills(members);
      if skills.Some? && skills.value.Arr? then Objects(skills.value.items) else []
    case _ => []
  }

  /** What the reader takes from the members in order: the entries of every `skills` list, nothing
      at all if one of them is no object or if another member follows a `skills` that is no list. */
  function Taken(members: seq<(string, Value)>): Option<Entries> {
    if members == [] then Some([])
    else
      var (key, value) := members[0];
      if !IsSkillsKey(key) then Taken(members[1..])
      else if !value.Arr? then (if |members| == 1 then Some([]) else None)
      else if !AllObjects(value.items) then None
      else
        match Taken(members[1..])
        case None => None
        case Some(more) => Some(value.items + more)
  }

  function Meaning(value: Value): Option<Entries> {
    match value
    case Arr(items) => if AllObjects(items) then Some(items) else None
    case Obj(members) => Taken(members)
    case _ => None
  }

  // ---- lists ----

  /** Decoding starts on no white space. */
  lemma TokenDecodes(dec: Decoder, t: string, p: nat)
    requires IsJson(dec) && p <= |t| && Decode(t, p).Got?
    ensures dec(t, p) == Decode(t, p) && Spaces(t, p) == p < |t|
  {
    if p < |t| && IsSpace(t[p]) {
      SpaceDoesNotDecode(dec, t, p);
    }
  }

  lemma FirstItem(dec: Decoder, t: string, p: nat) returns (first: Value, e: nat, rest: seq<Value>, end: nat)
    requires IsJson(dec) && p <= |t| && DecodeItems(t, p).Got?
    ensures dec(t, p) == Got(first, e) && Spaces(t, p) == p < |t| && p < e <= |t| && ItemsRest(t, e, rest, end)
    ensures !AllObjects(DecodeItems(t, p).value.items) && first.Obj? ==> !AllObjects(rest)
  {
    first, e := SplitItems(t, p);
    TokenDecodes(dec, t, p);
    rest, end := DecodeItems(t, p).value.items[1..], DecodeItems(t, p).end;
    AllObjectsOfParts(DecodeItems(t, p).value.items);
  }

  /** A list with an item that is no object is refused. */
  lemma {:induction false} OtherItemRefused(dec: Decoder, t: string, p: nat)
    requires IsJson(dec) && p <= |t| && DecodeItems(t, p).Got? && !AllObjects(DecodeItems(t, p).value.items)
    ensures ArrayIn(dec, t, p).None?
    decreases |t| - p, 1
  {
    var first, e, rest, end := FirstItem(dec, t, p);
    if first.Obj? {
      OtherBehindRefused(dec, t, e, rest, end);
    }
    ItemRefused(dec, t, p);
  }

  /** If the first item is an object, the one that is not is behind a comma. */
  lemma {:induction false} OtherBehindRefused(dec: Decoder, t: string, e: nat, rest: seq<Value>, end: nat)
    requires IsJson(dec) && e <= |t| && ItemsRest(t, e, rest, end) && !AllObjects(rest)
    ensures ArrayIn(dec, t, e).None?
    decreases |t| - e, 0
  {
    var next := Blanks(t, Blanks(t, e) + 1);
    OtherItemRefused(dec, t, next);
    ArrayInAfterComma(dec, t, e, next, None);
  }

  lemma ItemRefused(dec: Decoder, t: string, p: nat)
    requires IsJson(dec) && p < |t| && Spaces(t, p) == p && dec(t, p).Got?
    requires dec(t, p).value.Obj? ==> ArrayIn(dec, t, dec(t, p).end).None?
    ensures ArrayIn(dec, t, p).None?
  {
    NoSeparator(dec, t, p);
    EntryRefused(dec, t, p);
  }

  lemma EntryRefused(dec: Decoder, t: string, p: nat)
    requires p < |t| && Spaces(t, p) == p && t[p] != ',' && t[p] != ']' && dec(t, p).Got?
    requires dec(t, p).value.Obj? ==> ArrayIn(dec, t, dec(t, p).end).None?
    ensures ArrayIn(dec, t, p).None?
  {
  }

  lemma NoSeparator(dec: Decoder, t: string, p: nat)
    requires IsJson(dec) && p < |t| && dec(t, p).Got?
    ensures t[p] != ',' && t[p] != ']' && t[p] != '}' && t[p] != ':'
  {
    if t[p] == ',' || t[p] == ']' || t[p] == '}' || t[p] == ':' {
      PunctuationDoesNotDecode(dec, t, p);
    }
  }

  lemma ListMeans(dec: Decoder, t: string, q: nat)
    requires IsJson(dec) && q < |t| && t[q] == '[' && dec(t, q).Got?
    ensures dec(t, q).value.Arr?
    ensures var d := dec(t, q);
            ArrayIn(dec, t, q + 1) == if AllObjects(d.value.items) then Some((d.value.items, d.end)) else None
  {
    ObjectStartsWithBrace(dec, t, q);
    if AllObjects(dec(t, q).value.items) {
      ArrayIsEntries(dec, t, q);
    } else {
      ListRefused(dec, t, q);
    }
  }

  lemma ListRefused(dec: Decoder, t: string, q: nat)
    requires IsJson(dec) && q < |t| && t[q] == '[' && dec(t, q).Got? && dec(t, q).value.Arr?
    requires !AllObjects(dec(t, q).value.items)
    ensures ArrayIn(dec, t, q + 1).None?
  {
    assert dec(t, q) == Decode(t, q);
    BlanksAreSpaces(t, q + 1);
    OtherItemRefused(dec, t, Blanks(t, q + 1));
    ArrayInFromToken(dec, t, q + 1, Blanks(t, q + 1));
  }

  // ---- members ----

  lemma MembersUnfold(t: string, p: nat, key: string, value: Value, e: nat)
    requires p <= |t| && DecodeMembers(t, p).Got? && DecodeMember(t, p) == Some((key, value, e))
    ensures After(t, e, '}').Some? ==> DecodeMembers(t, p).value == Obj([(key, value)])
    ensures After(t, e, '}').None? ==>
              && After(t, e, ',').Some?
              && var next := DecodeMembers(t, Blanks(t, After(t, e, ',').value));
                 next.Got? && DecodeMembers(t, p).value == Obj([(key, value)] + next.value.members)
  {
  }

  /** A member stands at `p`: a key, a colon and a value that ends at `e`. */
  ghost predicate MemberAt(dec: Decoder, t: string, p: nat, key: string, value: Value, e: nat) {
    && p < |t| && t[p] == '"' && dec(t, p).Got? && dec(t, p).value == Str(key)
    && ColonIn(t, dec(t, p).end).Some?
    && var v := Spaces(t, ColonIn(t, dec(t, p).end).value);
       v < |t| && dec(t, v) == Got(value, e)
  }

  lemma MemberParts(t: string, p: nat)
    requires p <= |t| && DecodeMember(t, p).Some?
    ensures DecodeString(t, p).Got?
    ensures var k := DecodeString(t, p).end;
            && After(t, k, ':').Some?
            && var d := Decode(t, Blanks(t, After(t, k, ':').value));
               d.Got? && DecodeMember(t, p) == Some((DecodeString(t, p).value.text, d.value, d.end))
  {
  }

  lemma SplitMember(dec: Decoder, t: string, p: nat)
    requires IsJson(dec) && p <= |t| && DecodeMember(t, p).Some?
    ensures var (key, value, e) := DecodeMember(t, p).value;
            MemberAt(dec, t, p, key, value, e)
  {
    MemberParts(t, p);
    KeyDecodes(dec, t, p);
    var k := DecodeString(t, p).end;
    ColonFollows(t, k);
    ValueDecodes(dec, t, After(t, k, ':').value);
  }

  lemma ColonFollows(t: string, k: nat)
    requires k <= |t| && After(t, k, ':').Some?
    ensures ColonIn(t, k) == After(t, k, ':')
  {
    BlanksAreSpaces(t, k);
  }

  lemma KeyDecodes(dec: Decoder, t: string, p: nat)
    requires IsJson(dec) && p <= |t| && DecodeString(t, p).Got?
    ensures p < |t| && dec(t, p) == DecodeString(t, p)
  {
    assert dec(t, p) == Decode(t, p);
  }

  lemma ValueDecodes(dec: Decoder, t: string, c: nat)
    requires IsJson(dec) && c <= |t| && Decode(t, Blanks(t, c)).Got?
    ensures Spaces(t, c) == Blanks(t, c) < |t| && dec(t, Blanks(t, c)) == Decode(t, Blanks(t, c))
  {
    TokenDecodes(dec, t, Blanks(t, c));
    BlanksAreSpaces(t, c);
  }

  /** The first of several members ends at `e`, and the others, if any, come after a comma. */
  ghost predicate MembersAt(dec: Decoder, t: string, p: nat, members: seq<(string, Value)>, e: nat) {
    && members != [] && e <= |t| && MemberAt(dec, t, p, members[0].0, members[0].1, e)
    && RestAt(t, e, members[1..])
  }

  predicate RestAt(t: string, e: nat, rest: seq<(string, Value)>)
    requires e <= |t|
  {
    var z := Blanks(t, e) + 1;
    && z <= |t|
    && if rest == [] then t[z - 1] == '}'
       else
         && t[z - 1] == ',' && DecodeMembers(t, Blanks(t, z)).Got?
         && DecodeMembers(t, Blanks(t, z)).value == Obj(rest)
  }

  lemma RestFollows(t: string, first: (string, Value), e: nat, members: seq<(string, Value)>)
    requires e <= |t|
    requires After(t, e, '}').Some? ==> members == [first]
    requires After(t, e, '}').None? ==>
               && After(t, e, ',').Some?
               && var next := DecodeMembers(t, Blanks(t, After(t, e, ',').value));
                  next.Got? && members == [first] + next.value.members
    ensures members != [] && members[0] == first && RestAt(t, e, members[1..])
  {
    if After(t, e, '}').None? {
      var p := Blanks(t, After(t, e, ',').value);
      assert members[1..] == DecodeMembers(t, p).value.members;
      SomeMembers(t, p);
    }
  }

  lemma MembersStart(t: string, p: nat)
    requires p <= |t| && DecodeMembers(t, p).Got?
    ensures DecodeMember(t, p).Some?
  {
  }

  lemma SplitMembers(dec: Decoder, t: string, p: nat) returns (e: nat)
    requires IsJson(dec) && p <= |t| && DecodeMembers(t, p).Got?
    ensures p < e && MembersAt(dec, t, p, DecodeMembers(t, p).value.members, e)
  {
    MembersStart(t, p);
    SplitMember(dec, t, p);
    var (key, value, end) := DecodeMember(t, p).value;
    e := end;
    MembersUnfold(t, p, key, value, e);
    RestFollows(t, (key, value), e, DecodeMembers(t, p).value.members);
  }

  lemma SomeMembers(t: string, p: nat)
    requires p <= |t| && DecodeMembers(t, p).Got?
    ensures DecodeMembers(t, p).value.members != []
  {
  }

  lemma {:induction false} MembersMean(dec: Decoder, t: string, p: nat)
    requires IsJson(dec) && p <= |t| && DecodeMembers(t, p).Got?
    ensures p < |t| && t[p] == '"' && MemberIn(dec, t, p) == Taken(DecodeMembers(t, p).value.members)
    decreases |t| - p, 1
  {
    var e := SplitMembers(dec, t, p);
    var members := DecodeMembers(t, p).value.members;
    NextMembersMean(dec, t, e, members[1..]);
    MemberMeans(dec, t, p, members, e);
  }

  /** Behind a value, in JSON, comes the next member or the end of the object. */
  lemma {:induction false} NextMembersMean(dec: Decoder, t: string, e: nat, rest: seq<(string, Value)>)
    requires IsJson(dec) && e <= |t| && RestAt(t, e, rest)
    ensures GoesOnIn(dec, t, e) == Taken(rest)
    ensures ObjectIn(dec, t, e) == if rest == [] then Some([]) else None
    decreases |t| - e, 0
  {
    if rest != [] {
      MembersMean(dec, t, Blanks(t, Blanks(t, e) + 1));
    }
    RestMeans(dec, t, e, rest);
  }

  lemma MemberMeans(dec: Decoder, t: string, p: nat, members: seq<(string, Value)>, e: nat)
    requires IsJson(dec) && members != [] && MemberAt(dec, t, p, members[0].0, members[0].1, e) && e <= |t|
    requires GoesOnIn(dec, t, e) == Taken(members[1..])
    requires ObjectIn(dec, t, e) == if members[1..] == [] then Some([]) else None
    ensures MemberIn(dec, t, p) == Taken(members)
  {
    var k := dec(t, p).end;
    var c := ColonIn(t, k).value;
    MemberInOf(dec, t, p, dec(t, p).value, k, c);
    ValueMeans(dec, t, c, members, e);
  }

  /** What is taken from behind a value, and what if the comma there is not looked for. */
  lemma RestMeans(dec: Decoder, t: string, e: nat, rest: seq<(string, Value)>)
    requires IsJson(dec) && e <= |t|
    requires var z := Blanks(t, e) + 1;
             && z <= |t|
             && if rest == [] then t[z - 1] == '}'
                else t[z - 1] == ',' && Blanks(t, z) < |t| && t[Blanks(t, z)] == '"'
                     && MemberIn(dec, t, Blanks(t, z)) == Taken(rest)
    ensures GoesOnIn(dec, t, e) == Taken(rest)
    ensures ObjectIn(dec, t, e) == if rest == [] then Some([]) else None
  {
    BlanksAreSpaces(t, e);
    GoesOnInIs(dec, t, e);
    var z := Blanks(t, e) + 1;
    if rest != [] {
      FirstMemberIs(dec, t, z);
      PunctuationIsNoMember(dec, t, z - 1);
    }
  }

  lemma ValueMeans(dec: Decoder, t: string, c: nat, members: seq<(string, Value)>, e: nat)
    requires IsJson(dec) && c <= |t| && Spaces(t, c) < |t| && members != []
    requires dec(t, Spaces(t, c)) == Got(members[0].1, e)
    requires GoesOnIn(dec, t, e) == Taken(members[1..])
    requires ObjectIn(dec, t, e) == if members[1..] == [] then Some([]) else None
    ensures ValueIn(dec, members[0].0, t, c) == Taken(members)
  {
    if IsSkillsKey(members[0].0) {
      SkillsMean(dec, t, c, members[0].1, e);
      assert |members| == 1 <==> members[1..] == [];
    }
  }

  lemma SkillsMean(dec: Decoder, t: string, c: nat, value: Value, e: nat)
    requires IsJson(dec) && c <= |t| && Spaces(t, c) < |t| && dec(t, Spaces(t, c)) == Got(value, e)
    ensures SkillsIn(dec, t, c) == if !value.Arr? then ObjectIn(dec, t, e)
                                   else if !AllObjects(value.items) || GoesOnIn(dec, t, e).None? then None
                                   else Some(value.items + GoesOnIn(dec, t, e).value)
  {
    var v := Spaces(t, c);
    ObjectStartsWithBrace(dec, t, v);
    if t[v] == '[' {
      ListMeans(dec, t, v);
      assert SkillsIn(dec, t, c) == SkillsArrayIn(dec, t, v + 1);
    } else {
      assert SkillsIn(dec, t, c) == SkillsValueIn(dec, t, v);
    }
  }

  // ---- the whole index ----

  lemma ObjectUnfold(t: string, q: nat)
    requires q < |t| && t[q] == '{' && Decode(t, q).Got?
    ensures After(t, q + 1, '}').Some? ==> Decode(t, q).value == Obj([])
    ensures After(t, q + 1, '}').None? ==> Decode(t, q) == DecodeMembers(t, Blanks(t, q + 1))
  {
  }

  lemma ObjectMeans(dec: Decoder, t: string, q: nat)
    requires IsJson(dec) && q < |t| && t[q] == '{' && Decode(t, q).Got?
    ensures Decode(t, q).value.Obj? && ObjectIn(dec, t, q + 1) == Taken(Decode(t, q).value.members)
  {
    ObjectUnfold(t, q);
    BlanksAreSpaces(t, q + 1);
    if After(t, q + 1, '}').None? {
      MembersMean(dec, t, Blanks(t, q + 1));
      FirstMemberIs(dec, t, q + 1);
    }
  }

  lemma FirstMemberIs(dec: Decoder, t: string, p: nat)
    requires p <= |t| && Blanks(t, p) < |t| && t[Blanks(t, p)] == '"'
    ensures ObjectIn(dec, t, p) == MemberIn(dec, t, Blanks(t, p))
  {
    BlanksAreSpaces(t, p);
  }

  /** A text that starts with a JSON value, after white space: the reader takes from it just what
      its value means. What may come after the value is not looked at. */
  lemma JsonIndexMeans(dec: Decoder, t: string)
    requires IsJson(dec) && Decode(t, Spaces(t, 0)).Got?
    ensures EntriesIn(dec, t) == Meaning(Decode(t, Spaces(t, 0)).value)
  {
    var q := Spaces(t, 0);
    assert dec(t, q) == Decode(t, q);
    ObjectStartsWithBrace(dec, t, q);
    if t[q] == '[' {
      ListMeans(dec, t, q);
    } else if t[q] == '{' {
      ObjectMeans(dec, t, q);
    }
  }

  // ---- when that is what the value itself gives ----

  /** Every `skills` list holds objects only, none but the last holds any, and a `skills` that is
      no list is the last member. */
  predicate RegularMembers(members: seq<(string, Value)>) {
    members != [] ==>
      && RegularMembers(members[1..])
      && var (key, value) := members[0];
         IsSkillsKey(key) ==>
           if value.Arr? then AllObjects(value.items) && (LastSkills(members[1..]).Some? ==> value.items == [])
           else |members| == 1
  }

  predicate Regular(value: Value) {
    match value
    case Arr(items) => AllObjects(items)
    case Obj(members) => RegularMembers(members)
    case _ => false
  }

  lemma {:induction false} ObjectsOfObjects(items: seq<Value>)
    ensures AllObjects(items) ==> Objects(items) == items
    ensures |Objects(items)| <= |items|
  {
    if items != [] {
      AllObjectsOfParts(items);
      ObjectsOfObjects(items[1..]);
    }
  }

  lemma {:induction false} NoSkillsNothingTaken(members: seq<(string, Value)>)
    requires LastSkills(members).None?
    ensures Taken(members) == Some([]) && RegularMembers(members)
  {
    if members != [] {
      NoSkillsNothingTaken(members[1..]);
    }
  }

  /** The reader never takes less than the value itself gives. */
  lemma {:induction false} NothingMissed(members: seq<(string, Value)>)
    requires Taken(members).Some?
    ensures |Taken(members).value| >= |Coerced(Obj(members))|
  {
    if members != [] {
      var (key, value) := members[0];
      var rest := members[1..];
      if IsSkillsKey(key) && !value.Arr? {
        assert rest == [] && LastSkills(rest).None?;
        assert Coerced(Obj(members)) == [];
      } else {
        NothingMissed(rest);
        if IsSkillsKey(key) && LastSkills(rest).None? {
          ObjectsOfObjects(value.items);
          assert Coerced(Obj(members)) == Objects(value.items);
        } else {
          assert Coerced(Obj(members)) == Coerced(Obj(rest));
        }
      }
    }
  }

  lemma {:induction false} TakenIsCoercedIff(members: seq<(string, Value)>)
    ensures Taken(members) == Some(Coerced(Obj(members))) <==> RegularMembers(members)
  {
    if members != [] {
      var (key, value) := members[0];
      var rest := members[1..];
      TakenIsCoercedIff(rest);
      if IsSkillsKey(key) && value.Arr? {
        ObjectsOfObjects(value.items);
        if LastSkills(rest).None? {
          NoSkillsNothingTaken(rest);
          assert value.items + [] == value.items;
        } else if Taken(rest).Some? {
          NothingMissed(rest);
          assert [] + Taken(rest).value == Taken(rest).value;
        }
      }
    }
  }

  /** For an index that is JSON the reader takes what the value itself gives exactly if its `skills`
      are regular. */
  lemma JsonIndexIsCoercedIff(dec: Decoder, t: string)
    requires IsJson(dec) && Decode(t, Spaces(t, 0)).Got?
    ensures var value := Decode(t, Spaces(t, 0)).value;
            EntriesIn(dec, t) == Some(Coerced(value)) <==> Regular(value)
  {
    JsonIndexMeans(dec, t);
    var value := Decode(t, Spaces(t, 0)).value;
    match value
    case Arr(items) => ObjectsOfObjects(items);
    case Obj(members) => TakenIsCoercedIff(members);
    case _ =>
  }
}
