/** The reader object itself: a buffer, a position and an end-of-file mark that are updated while
    a file hands out its text read by read. Errors are reported as `None`. */
module StreamingReader {
  import opened Wrappers
  import opened Text
  import opened Json
  import opened StreamRules
  import opened StreamFacts
  import opened StreamObjects
  import opened StreamIndex

  class StreamingJSONReader {
    /** What the file will still return, one non-empty text for each read. */
    var pending: seq<string>
    var buffer: string
    var position: nat
    var eof: bool
    const decoder: Decoder

    function Seen(): Window
      reads this
    {
      Window(buffer, position, pending, eof, decoder)
    }

    ghost predicate Ready()
      reads this
    {
      Valid(Seen())
    }

    constructor (file: seq<string>)
      requires forall i | 0 <= i < |file| :: file[i] != ""
      ensures Ready() && Seen() == Unread(decoder, file)
    {
      pending, buffer, position, eof := file, "", 0, false;
      decoder := (s: string, p: nat) => if p <= |s| then Decode(s, p) else Fail;
    }

    method FillBuffer()
      requires Ready()
      modifies this
      ensures Ready() && Seen() == Filled(old(Seen()))
    {
      if eof {
        return;
      }
      if pending == [] {
        eof := true;
        return;
      }
      buffer := buffer + pending[0];
      pending := pending[1..];
    }

    method SkipWhitespace()
      requires Ready()
      modifies this
      ensures Ready() && Seen() == Skipped(old(Seen()))
    {
      ghost var before := Seen();
      var stopped := false;
      while !stopped
        invariant Ready() && if stopped then Seen() == Skipped(before) else Skipped(Seen()) == Skipped(before)
        decreases !stopped
      {
        ghost var here := Seen();
        while position < |buffer| && IsSpace(buffer[position])
          invariant Ready() && Seen() == here.(position := position)
          invariant Skipped(Seen()) == Skipped(before)
          decreases |buffer| - position
        {
          position := position + 1;
        }
        if position < |buffer| {
          return;
        }
        FillBuffer();
        stopped := position < |buffer| || eof;
      }
    }

    method Peek() returns (c: Option<char>)
      requires Ready()
      modifies this
      ensures Ready() && Seen() == Skipped(old(Seen()))
      ensures c == if position < |buffer| then Some(buffer[position]) else None
    {
      SkipWhitespace();
      if position >= |buffer| {
        return None;
      }
      return Some(buffer[position]);
    }

    method DecodeValue() returns (value: Option<Value>)
      requires Ready()
      modifies this
      ensures Ready()
      ensures DecodedValue(old(Seen())) == if value.Some? then Some((value.value, Seen())) else None
    {
      SkipWhitespace();
      while true
        invariant Ready() && DecodedFrom(Seen()) == DecodedValue(old(Seen()))
        decreases |pending|, !eof
      {
        var decoded := decoder(buffer, position);
        if decoded.Got? {
          position := decoded.end;
          return Some(decoded.value);
        }
        if eof {
          return None;
        }
        FillBuffer();
        SkipWhitespace();
        if position >= |buffer| {
          if eof {
            return None;
          }
        }
      }
    }

    method ConsumeChar(expected: char) returns (ok: bool)
      requires Ready()
      modifies this
      ensures Ready()
      ensures var again := Skipped(old(Seen()));
              var last := if again.position >= |again.buffer| then Skipped(Filled(again)) else again;
              && (ok <==> last.position < |last.buffer| && last.buffer[last.position] == expected)
              && (ok ==> Seen() == last.(position := last.position + 1))
    {
      SkipWhitespace();
      if position >= |buffer| {
        FillBuffer();
        SkipWhitespace();
      }
      if position >= |buffer| {
        return false;
      }
      var actual := buffer[position];
      if actual != expected {
        return false;
      }
      position := position + 1;
      return true;
    }

    method ReadArrayValues() returns (entries: Option<Entries>)
      requires Ready()
      modifies this
      ensures Ready()
      ensures ArrayEntries(old(Seen())) == if entries.Some? then Some((entries.value, Seen())) else None
    {
      ghost var goal := ArrayEntries(Seen());
      var found: Entries := [];
      NothingFoundYet(Seen());
      while true
        invariant Ready() && Found(goal, found, Seen())
        decreases |Whole(Seen())| - position
      {
        ghost var here := Seen();
        var next := ReadArrayValue();
        StepIsFound(goal, found, here, next, Seen());
        match next
        case Unreadable => return None;
        case Closing => return Some(found);
        case Comma =>
        case Entry(entry) => found := found + [entry];
      }
    }

    /** Read what comes next in an array: an entry, a comma or the closing bracket. */
    method ReadArrayValue() returns (next: ArrayStep)
      requires Ready()
      modifies this
      ensures Ready() && (!next.Unreadable? ==> Onward(old(Seen()), Seen()) && old(position) < position)
      ensures StepFrom(Peeked(old(Seen())), next, Seen())
    {
      SkipWhitespace();
      var current := Peek();
      if current.None? {
        return Unreadable;
      }
      if current.value == ']' {
        position := position + 1;
        return Closing;
      }
      if current.value == ',' {
        position := position + 1;
        return Comma;
      }
      var entry := DecodeValue();
      return if entry.None? || !entry.value.Obj? then Unreadable else Entry(entry.value);
    }

    method PassColon() returns (ok: bool)
      requires Ready()
      modifies this
      ensures Ready() && PastColon(old(Seen())) == if ok then Some(Seen()) else None
    {
      SkipWhitespace();
      var current := Peek();
      if current == Some(':') {
        position := position + 1;
        return true;
      }
      ok := ConsumeChar(':');
    }

    /** Read the value of the `skills` member. */
    method ReadSkillsValue() returns (member: Member)
      requires Ready()
      modifies this
      ensures Ready() && SkillsRead(old(Seen())) == if member.Broken? then None else Some((member, Seen()))
    {
      ghost var here := Seen();
      SkipWhitespace();
      var current := Peek();
      ghost var at := Seen();
      SkillsReadAt(here, at);
      if current.None? {
        return Broken;
      }
      if current.value != '[' {
        member := ReadPlainValue();
        return;
      }
      position := position + 1;
      assert Seen() == Past(at);
      member := ReadListedValue();
    }

    method ReadListedValue() returns (member: Member)
      requires Ready()
      modifies this
      ensures Ready() && ArrayMember(ArrayEntries(old(Seen()))) == if member.Broken? then None
              else Some((member, Seen()))
    {
      var entries := ReadArrayValues();
      return if entries.None? then Broken else Member(entries.value, true);
    }

    /** Decode the value as a whole and take its entries if it is a list. */
    method ReadPlainValue() returns (member: Member)
      requires Ready()
      modifies this
      ensures Ready() && PlainMember(DecodedValue(old(Seen()))) == if member.Broken? then None
              else Some((member, Seen()))
    {
      var value := DecodeValue();
      if value.None? {
        return Broken;
      }
      if value.value.Arr? {
        if !AllObjects(value.value.items) {
          return Broken;
        }
        return Member(value.value.items, false);
      }
      return Member([], false);
    }

    /** Read a key, a colon and a value; entries come from the `skills` member only. */
    method ReadMember() returns (member: Member)
      requires Ready()
      modifies this
      ensures Ready() && MemberEntries(old(Seen())) == Continued(member, Seen())
      ensures member.Member? ==> Onward(old(Seen()), Seen()) && old(position) < position
    {
      ghost var at := Seen();
      var key := DecodeValue();
      if key.None? || !key.value.Str? {
        return Broken;
      }
      ghost var after := Seen();
      var colon := PassColon();
      if !colon {
        return Broken;
      }
      MemberEntriesIs(at, key.value, after, Seen());
      ValueEntriesIs(key.value.text, Seen());
      if IsSkillsKey(key.value.text) {
        SkillsReadIs(Seen());
        member := ReadSkillsValue();
      } else {
        var other := DecodeValue();
        PutNothing(MembersGoOn(Seen()));
        return if other.None? then Broken else Member([], true);
      }
    }

    /** Pass a comma, or stop at a closing brace; anything else is left where it is. */
    method PassSeparator() returns (closed: bool)
      requires Ready()
      modifies this
      ensures Ready()
      ensures var at := Peeked(old(Seen()));
              && (closed <==> at.position < |at.buffer| && at.buffer[at.position] == '}')
              && Seen() == if closed || (at.position < |at.buffer| && at.buffer[at.position] == ',') then Past(at)
                  else at
    {
      SkipWhitespace();
      var current := Peek();
      if current == Some(',') {
        position := position + 1;
        return false;
      }
      if current == Some('}') {
        position := position + 1;
        return true;
      }
      return false;
    }

    method ReadSkillsFromObject() returns (entries: Option<Entries>)
      requires Ready()
      modifies this
      ensures Ready() && entries == ObjectEntries(old(Seen()))
    {
      ghost var goal := ObjectEntries(Seen());
      var found: Entries := [];
      PutNothing(goal);
      while true
        invariant Ready() && FoundSkills(goal, found, Seen())
        decreases |Whole(Seen())| - position
      {
        ghost var here := Seen();
        SkipWhitespace();
        var current := Peek();
        ghost var at := Seen();
        ObjectEntriesIs(goal, found, here, at);
        if current.None? {
          return None;
        }
        if current.value == '}' {
          position := position + 1;
          return Some(found);
        }
        var member := ReadMember();
        MemberIsFound(goal, found, member, Seen());
        if member.Broken? {
          return None;
        }
        found := found + member.entries;
        if member.goesOn {
          SeparatorIs(Seen(), Peeked(Seen()));
          var closed := PassSeparator();
          if closed {
            PutLast(found);
            return Some(found);
          }
        }
      }
    }

    /** The reader gives exactly what its steps define, and so the outcome of the whole text exactly
        if the reads let the index through, or it is refused anyway. */
    method ReadTopLevelEntries() returns (entries: Option<Entries>)
      requires Ready() && Seen() == Unread(decoder, pending)
      modifies this
      ensures Ready() && entries == TopLevelEntries(old(Seen()))
      ensures entries.Some? ==> entries == EntriesIn(decoder, Join(old(pending)))
      ensures entries == EntriesIn(decoder, Join(old(pending)))
              <==> IndexPasses(decoder, old(pending), Join(old(pending)))
                   || EntriesIn(decoder, Join(old(pending))).None?
    {
      ghost var start := Seen();
      IndexIsRead(decoder, pending);
      FillBuffer();
      SkipWhitespace();
      var first := Peek();
      ghost var at := Seen();
      TopLevelIs(start, at);
      if first.None? {
        return None;
      }
      if first.value == '[' {
        position := position + 1;
        assert Seen() == Past(at);
        entries := ReadArrayValues();
      } else if first.value == '{' {
        position := position + 1;
        assert Seen() == Past(at);
        entries := ReadSkillsFromObject();
      } else {
        entries := None;
      }
    }
  }

  /** A member of the top-level object that was read: its entries, and whether a comma or a closing
      brace is looked for next. */
  datatype Member = Broken | Member(entries: Entries, goesOn: bool)

  function Put(found: Entries, rest: Option<Entries>): Option<Entries> {
    if rest.None? then None else Some(found + rest.value)
  }

  /** The `skills` value by itself, and where it ends. */
  function SkillsRead(w: Window): (r: Option<(Member, Window)>)
    requires Valid(w)
    ensures r.Some? ==> r.value.0.Member? && Onward(w, r.value.1) && w.position < r.value.1.position
  {
    var at := Peeked(w);
    if at.position == |at.buffer| then None
    else if at.buffer[at.position] == '[' then ArrayMember(ArrayEntries(Past(at)))
    else PlainMember(DecodedValue(at))
  }

  lemma SkillsReadAt(w: Window, at: Window)
    requires Valid(w) && at == Peeked(w)
    ensures SkillsRead(w) == if at.position == |at.buffer| then None
                             else if at.buffer[at.position] == '[' then ArrayMember(ArrayEntries(Past(at)))
                             else PlainMember(DecodedValue(at))
  {
  }

  function ArrayMember(entries: Option<(Entries, Window)>): Option<(Member, Window)> {
    if entries.None? then None else Some((Member(entries.value.0, true), entries.value.1))
  }

  function PlainMember(value: Option<(Value, Window)>): Option<(Member, Window)> {
    if value.None? || (value.value.0.Arr? && !AllObjects(value.value.0.items)) then None
    else Some((Member(if value.value.0.Arr? then value.value.0.items else [], false), value.value.1))
  }

  lemma SkillsReadIs(w: Window)
    requires Valid(w)
    ensures SkillsEntries(w) == if SkillsRead(w).None? then None
            else Continued(SkillsRead(w).value.0, SkillsRead(w).value.1)
  {
    SkillsReadFrom(w, Peeked(w));
  }

  lemma SkillsReadFrom(w: Window, at: Window)
    requires Valid(w) && at == Peeked(w)
    ensures SkillsEntries(w) == if SkillsRead(w).None? then None
            else Continued(SkillsRead(w).value.0, SkillsRead(w).value.1)
  {
    SkillsReadAt(w, at);
    if at.position < |at.buffer| {
      SkillsEntriesIs(w, at);
      if at.buffer[at.position] == '[' {
        SkillsArrayIs(Past(at));
      } else {
        SkillsValueIs(at);
      }
    }
  }

  lemma SkillsArrayIs(w: Window)
    requires Valid(w)
    ensures var read := ArrayMember(ArrayEntries(w));
            SkillsArray(w) == if read.None? then None else Continued(read.value.0, read.value.1)
  {
  }

  lemma SkillsValueIs(at: Window)
    requires Valid(at)
    ensures var read := PlainMember(DecodedValue(at));
            SkillsValue(at) == if read.None? then None else Continued(read.value.0, read.value.1)
  {
  }

  function Continued(member: Member, w: Window): Option<Entries>
    requires Valid(w)
  {
    if member.Broken? then None
    else Put(member.entries, if member.goesOn then MembersGoOn(w) else ObjectEntries(w))
  }

  /** The top-level object has `goal` as its outcome, and with the entries found so far it is at `w`. */
  ghost predicate FoundSkills(goal: Option<Entries>, found: Entries, w: Window) {
    Valid(w) && goal == Put(found, ObjectEntries(w))
  }

  lemma ObjectEntriesIs(goal: Option<Entries>, found: Entries, w: Window, at: Window)
    requires FoundSkills(goal, found, w) && at == Peeked(w)
    ensures at.position >= |at.buffer| ==> goal.None?
    ensures at.position < |at.buffer| && at.buffer[at.position] == '}' ==> goal == Some(found)
    ensures at.position < |at.buffer| && at.buffer[at.position] != '}' ==> goal == Put(found, MemberEntries(at))
  {
    PutLast(found);
  }

  lemma MemberIsFound(goal: Option<Entries>, found: Entries, member: Member, w: Window)
    requires Valid(w) && goal == Put(found, Continued(member, w))
    ensures member.Broken? ==> goal.None?
    ensures member.Member? ==>
            goal == Put(found + member.entries, if member.goesOn then MembersGoOn(w) else ObjectEntries(w))
  {
    if member.Member? {
      PutTwice(found, member.entries, if member.goesOn then MembersGoOn(w) else ObjectEntries(w));
    }
  }

  lemma PutTwice(found: Entries, more: Entries, rest: Option<Entries>)
    ensures Put(found, Put(more, rest)) == Put(found + more, rest)
  {
    if rest.Some? {
      assert found + (more + rest.value) == found + more + rest.value;
    }
  }

  lemma TopLevelIs(w: Window, at: Window)
    requires Valid(w) && at == Peeked(Filled(w))
    ensures at.position >= |at.buffer| ==> TopLevelEntries(w).None?
    ensures at.position < |at.buffer| && at.buffer[at.position] == '[' ==>
              TopLevelEntries(w) == if ArrayEntries(Past(at)).None? then None else Some(ArrayEntries(Past(at)).value.0)
    ensures at.position < |at.buffer| && at.buffer[at.position] == '{' ==> TopLevelEntries(w) == ObjectEntries(Past(at))
    ensures at.position < |at.buffer| && at.buffer[at.position] != '[' && at.buffer[at.position] != '{' ==>
            TopLevelEntries(w).None?
  {
  }

  lemma IndexIsRead(dec: Decoder, file: seq<string>)
    requires IsJson(dec) && CutInto(file, Join(file))
    ensures var t, read := Join(file), TopLevelEntries(Unread(dec, file));
            && (read.Some? ==> read == EntriesIn(dec, t))
            && (read == EntriesIn(dec, t) <==> IndexPasses(dec, file, t) || EntriesIn(dec, t).None?)
  {
    if TopLevelEntries(Unread(dec, file)).Some? {
      NeverWrong(dec, file, Join(file));
    }
    IndexIsReadIff(dec, file, Join(file));
  }

  lemma SeparatorIs(w: Window, at: Window)
    requires Valid(w) && at == Peeked(w)
    ensures at.position < |at.buffer| && at.buffer[at.position] == ',' ==> MembersGoOn(w) == ObjectEntries(Past(at))
    ensures at.position < |at.buffer| && at.buffer[at.position] == '}' ==> MembersGoOn(w) == Some([])
    ensures at.position >= |at.buffer| || (at.buffer[at.position] != ',' && at.buffer[at.position] != '}') ==>
              MembersGoOn(w) == ObjectEntries(at)
  {
  }

  lemma ValueEntriesIs(key: string, w: Window)
    requires Valid(w)
    ensures IsSkillsKey(key) ==> ValueEntries(key, w) == SkillsEntries(w)
    ensures !IsSkillsKey(key) ==> ValueEntries(key, w) == if DecodedValue(w).None? then None
            else MembersGoOn(DecodedValue(w).value.1)
  {
  }

  lemma PutNothing(rest: Option<Entries>)
    ensures Put([], rest) == rest
  {
    if rest.Some? {
      assert [] + rest.value == rest.value;
    }
  }

  lemma PutLast(found: Entries)
    ensures Put(found, Some([])) == Some(found)
  {
    assert found + [] == found;
  }

  function Prefixed(found: Entries, rest: Option<(Entries, Window)>): Option<(Entries, Window)> {
    if rest.None? then None else Some((found + rest.value.0, rest.value.1))
  }

  /** The array has `goal` as its outcome, and with the entries found so far it is at `w`. */
  ghost predicate Found(goal: Option<(Entries, Window)>, found: Entries, w: Window) {
    Valid(w) && goal == Prefixed(found, ArrayEntries(w))
  }

  lemma NothingFoundYet(w: Window)
    requires Valid(w)
    ensures Found(ArrayEntries(w), [], w)
  {
    if ArrayEntries(w).Some? {
      assert [] + ArrayEntries(w).value.0 == ArrayEntries(w).value.0;
    }
  }

  datatype ArrayStep = Unreadable | Closing | Comma | Entry(entry: Value)

  /** What a step in an array does from the window peeked at. */
  ghost predicate StepFrom(at: Window, next: ArrayStep, after: Window)
    requires Valid(at)
  {
    if at.position == |at.buffer| then next == Unreadable
    else if at.buffer[at.position] == ']' then next == Closing && after == Past(at)
    else if at.buffer[at.position] == ',' then next == Comma && after == Past(at)
    else if DecodedValue(at).None? || !DecodedValue(at).value.0.Obj? then next == Unreadable
    else next.Entry? && DecodedValue(at) == Some((next.entry, after))
  }

  lemma StepIsFound(goal: Option<(Entries, Window)>, found: Entries, w: Window, next: ArrayStep, after: Window)
    requires Found(goal, found, w) && Valid(after) && StepFrom(Peeked(w), next, after)
    ensures match next
            case Unreadable => goal.None?
            case Closing => goal == Some((found, after))
            case Comma => Found(goal, found, after)
            case Entry(entry) => Found(goal, found + [entry], after)
  {
    var at := Peeked(w);
    match next
    case Unreadable =>
      if at.position < |at.buffer| {
        ArrayAfterEntry(w, at);
      }
    case Closing =>
      ArrayAtEnd(w);
      assert found + [] == found;
    case Comma =>
      ArrayAfterComma(w);
    case Entry(entry) =>
      ArrayAfterEntry(w, at);
      EntryIsFound(goal, found, at, entry, after);
  }

  lemma EntryIsFound(goal: Option<(Entries, Window)>, found: Entries, at: Window, entry: Value, after: Window)
    requires Valid(at) && goal == Prefixed(found, EntryAndMore(at)) && DecodedValue(at) == Some((entry, after))
            && entry.Obj?
    ensures Found(goal, found + [entry], after)
  {
    if ArrayEntries(after).Some? {
      assert found + ([entry] + ArrayEntries(after).value.0) == found + [entry] + ArrayEntries(after).value.0;
    }
  }
}
