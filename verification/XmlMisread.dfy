/** Values that hold a date-time the parser does not read back: they never come back as a whole. */
module XmlMisread {
  import opened TextSearch
  import opened XmlText
  import opened XmlNumbers
  import opened XmlValue
  import opened XmlRoundTrip

  /** The text of v is rejected, or taken for another value. */
  predicate Misses(p: Parsed, v: Value) {
    p.ok ==> p.value != Renamed(v)
  }

  /**
   A date-time that is not readable, however deep, spoils the value that holds it: parsing
   stops there or goes on with another date-time, and nothing that follows can mend that.
   */
  lemma {:induction false} Misread(v: Value, xml: string, off: nat)
    requires Formed(v) && !ReadableTimes(v) && |xml| <= INT_MAX && off <= |xml| && At(xml, off, ToXml(v))
    ensures Misses(FromXml(xml, off), v)
    decreases v, 0
  {
    hide At, FromXml, PrintTm, ScanTm, Sorted, ReadableTm, ValuesToXml, MembersToXml, ValuesFromXml, MembersFromXml;
    hide RenamedValues, RenamedMembers, InsertAll;
    match v
    case DateTime(tm) =>
      TimeScanned(tm, xml, off);
      ScanPrintTmIff(tm);
    case Array(vs) =>
      ArrayParts(vs, xml, off);
      ValuesMisread(vs, xml, off + 20);
      ArrayRead(vs, xml, off);
    case Struct(ms) =>
      StructParts(ms, xml, off);
      StructRead(ms, xml, off);
      MembersNone(ms);
      var i, w := MembersMisread(ms, [], xml, off + 15);
      var p := MembersFromXml(xml, off + 15, []);
      if p.ok && p.value == Renamed(v) {
        OnlyOneValue(ms, i, w);
      }
  }

  lemma ArrayRead(vs: seq<Value>, xml: string, off: nat)
    requires |xml| <= INT_MAX && off + 20 <= |xml| && At(xml, off, ToXml(Array(vs)))
    ensures var p := FromXml(xml, off); p.ok ==> p.value == Array(ValuesFromXml(xml, off + 20).vs)
  {
    hide At, ValuesToXml, ValuesFromXml, NextTagIs, GetNextTag, TypedFromXml, FindTag;
    var content := DATA_TAG + (ValuesToXml(vs) + DATA_ETAG);
    ArrayParts(vs, xml, off);
    WrappedParts(xml, off, ARRAY_TAG, content, ARRAY_ETAG);
    NextTagHit(VALUE_TAG, xml, off);
    TagHere(xml, off + 7, ARRAY_TAG);
    NextTagHit(DATA_TAG, xml, off + 14);
    TypedArray(xml, off + 7, off + 14);
  }

  lemma StructRead(ms: seq<Member>, xml: string, off: nat)
    requires |xml| <= INT_MAX && off + 15 <= |xml| && At(xml, off, ToXml(Struct(ms)))
    ensures var p := FromXml(xml, off); p.ok ==>
      var q := MembersFromXml(xml, off + 15, []); q.ok && p.value == q.value
  {
    hide At, MembersToXml, MembersFromXml, NextTagIs, GetNextTag, TypedFromXml, FindTag;
    WrappedParts(xml, off, STRUCT_TAG, MembersToXml(ms), STRUCT_ETAG);
    NextTagHit(VALUE_TAG, xml, off);
    TagHere(xml, off + 7, STRUCT_TAG);
    TypedStruct(xml, off + 7, off + 15);
  }

  lemma {:induction false} ValuesMisread(vs: seq<Value>, xml: string, off: nat)
    requires (forall v :: v in vs ==> Formed(v)) && (exists v :: v in vs && !ReadableTimes(v))
    requires |xml| <= INT_MAX && off <= |xml| && At(xml, off, ValuesToXml(vs))
    ensures ValuesFromXml(xml, off).vs != RenamedValues(vs)
    decreases vs, 0
  {
    hide At, ToXml, FromXml, Formed, ReadableTimes, Renamed;
    var first, rest := ToXml(vs[0]), ValuesToXml(vs[1..]);
    AtSplit(xml, off, first, rest);
    AtSlice(xml, off, first);
    assert vs[0] in vs;
    var l, rs := ValuesFromXml(xml, off), RenamedValues(vs);
    assert rs[0] == Renamed(vs[0]) && rs[1..] == RenamedValues(vs[1..]);
    if !ReadableTimes(vs[0]) {
      Misread(vs[0], xml, off);
      assert l.vs != [] ==> l.vs[0] != rs[0];
    } else {
      RoundTrip(vs[0], xml, off);
      ValuesMisread(vs[1..], xml, off + |first|);
      assert l.vs[1..] == ValuesFromXml(xml, off + |first|).vs;
    }
  }

  /* ---- structs ---- */

  /** What has been put into the map stays there. */
  lemma {:induction false} MembersKeep(xml: string, off: nat, acc: seq<Member>)
    requires off <= |xml| && Sorted(acc)
    ensures var p := MembersFromXml(xml, off, acc);
      p.ok ==> p.value.Struct? && forall m :: m in acc ==> m in p.value.ms
    decreases |xml| - off
  {
    hide NextTagIs, ParseTag, FromXml, Insert, Less;
    var m := NextTagIs(MEMBER_TAG, xml, off);
    if m.ok {
      var name := ParseTag(NAME_TAG, xml, m.off);
      var p := FromXml(xml, name.off);
      if p.ok {
        var r := Member(name.text, p.value);
        InsertSorted(acc, r);
        MembersKeep(xml, NextTagIs(MEMBER_ETAG, xml, p.off).off, Insert(acc, r));
      }
    }
  }

  /** One member, whatever its value is taken for. */
  lemma MemberRead(m: Member, acc: seq<Member>, xml: string, off: nat)
    requires |xml| <= INT_MAX && At(xml, off, MemberToXml(m)) && Sorted(acc) && !HasName(acc, Encode(m.name))
    requires off + 21 + |Encode(m.name)| <= |xml|
    ensures var p := FromXml(xml, off + 21 + |Encode(m.name)|);
      var q := MembersFromXml(xml, off, acc);
      q.ok ==> p.ok && q.value.Struct? && Member(Encode(m.name), p.value) in q.value.ms
  {
    hide At, Encode, ToXml, FromXml, Insert, NextTagIs, ParseTag, MemberToXml, Sorted;
    MemberParts(m, xml, off);
    NextTagHit(MEMBER_TAG, xml, off);
    EncodeClean(m.name);
    assert "</" + NAME_TAG[1..] == NAME_ETAG;
    var i := off + 21 + |Encode(m.name)|;
    ParseTagHere(NAME_TAG, xml, off + 8, Encode(m.name));
    var p := FromXml(xml, i);
    if p.ok {
      var r := Member(Encode(m.name), p.value);
      InsertSorted(acc, r);
      MembersKeep(xml, NextTagIs(MEMBER_ETAG, xml, p.off).off, Insert(acc, r));
    }
  }

  /** None of the members is in the map yet. */
  predicate AllNew(ms: seq<Member>, acc: seq<Member>) {
    forall i :: 0 <= i < |ms| ==> !HasName(acc, Encode(ms[i].name))
  }

  lemma MembersNone(ms: seq<Member>)
    ensures Sorted([]) && AllNew(ms, [])
  {
  }

  lemma NamesDiffer(ms: seq<Member>, i: nat, j: nat)
    requires Sorted(ms) && i < |ms| && j < |ms| && Encode(ms[i].name) == Encode(ms[j].name)
    ensures i == j
  {
    hide Encode, Less;
    EncodeInjective(ms[i].name, ms[j].name);
    LessIrreflexive(ms[i].name);
  }

  lemma AllNewRest(ms: seq<Member>, acc: seq<Member>, x: Value)
    requires Sorted(ms) && Sorted(acc) && ms != [] && AllNew(ms, acc)
    ensures var next := Insert(acc, Member(Encode(ms[0].name), x)); Sorted(next) && AllNew(ms[1..], next)
  {
    hide Encode, Insert, Less;
    var r := Member(Encode(ms[0].name), x);
    var next := Insert(acc, r);
    InsertSorted(acc, r);
    forall i, k | 0 <= i < |ms[1..]| && 0 <= k < |next| ensures next[k].name != Encode(ms[1..][i].name) {
      assert next[k] in next && ms[1..][i] == ms[i + 1];
      if next[k] == r {
        if Encode(ms[0].name) == Encode(ms[i + 1].name) {
          NamesDiffer(ms, 0, i + 1);
        }
      } else {
        var l :| 0 <= l < |acc| && acc[l] == next[k];
        assert !HasName(acc, Encode(ms[i + 1].name));
      }
    }
  }

  /** The first member with an unreadable date-time is taken for another, and stays in the map as that. */
  lemma {:induction false} MembersMisread(ms: seq<Member>, acc: seq<Member>, xml: string, off: nat)
    returns (i: nat, w: Value)
    requires (forall m :: m in ms ==> Formed(m.value)) && (exists m :: m in ms && !ReadableTimes(m.value))
    requires Sorted(ms) && Sorted(acc) && AllNew(ms, acc)
    requires |xml| <= INT_MAX && off <= |xml| && At(xml, off, MembersToXml(ms))
    ensures var p := MembersFromXml(xml, off, acc); p.ok ==>
      i < |ms| && p.value.Struct? && Member(Encode(ms[i].name), w) in p.value.ms && w != Renamed(ms[i].value)
    decreases ms, 0
  {
    hide At, ToXml, FromXml, Formed, ReadableTimes, Renamed, MemberToXml, Insert, Encode, MembersFromXml, Sorted;
    hide HasName;
    var m := ms[0];
    var first, rest := MemberToXml(m), MembersToXml(ms[1..]);
    AtSplit(xml, off, first, rest);
    AtSlice(xml, off, first);
    assert m in ms;
    MemberParts(m, xml, off);
    var k := off + 21 + |Encode(m.name)|;
    if !ReadableTimes(m.value) {
      Misread(m.value, xml, k);
      MemberRead(m, acc, xml, off);
      i, w := 0, FromXml(xml, k).value;
    } else {
      RoundTrip(m.value, xml, k);
      MemberTrip(m, acc, xml, off);
      AllNewRest(ms, acc, Renamed(m.value));
      SortedRest(ms);
      i, w := MembersMisread(ms[1..], Insert(acc, Member(Encode(m.name), Renamed(m.value))), xml, off + |first|);
      i := i + 1;
    }
  }

  lemma SortedRest(ms: seq<Member>)
    requires Sorted(ms) && ms != []
    ensures Sorted(ms[1..])
  {
    hide Less;
  }

  /** The renamed struct has one value for each name. */
  lemma OnlyOneValue(ms: seq<Member>, i: nat, w: Value)
    requires Sorted(ms) && i < |ms| && Renamed(Struct(ms)).Struct?
    requires Member(Encode(ms[i].name), w) in Renamed(Struct(ms)).ms
    ensures w == Renamed(ms[i].value)
  {
    hide Encode, Sorted, Renamed, RenamedMembers;
    StructKeepsMembers(ms);
    RenamedMembersAll(ms);
    var rs := RenamedMembers(ms);
    assert Member(Encode(ms[i].name), w) in rs;
    var j :| 0 <= j < |rs| && rs[j] == Member(Encode(ms[i].name), w);
    NamesDiffer(ms, i, j);
  }

  /**
   The round trip over whole values, exactly: in any surrounding text, a value comes back with
   its member names encoded, and the parser stops at its end, if and only if every date-time in
   it, at any depth, is readable.
   */
  lemma RoundTripIff(v: Value, xml: string, off: nat)
    requires Formed(v) && |xml| <= INT_MAX && off <= |xml| && At(xml, off, ToXml(v))
    ensures FromXml(xml, off) == Parsed(true, Renamed(v), off + |ToXml(v)|) <==> ReadableTimes(v)
    ensures !ReadableTimes(v) ==> Misses(FromXml(xml, off), v)
  {
    hide At, FromXml, ToXml, Renamed, Formed, ReadableTimes;
    if ReadableTimes(v) {
      RoundTrip(v, xml, off);
    } else {
      Misread(v, xml, off);
    }
  }
}
