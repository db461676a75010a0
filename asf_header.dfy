/**
 * The rules `ReadHeader` applies to the header objects it reads, one object
 * at a time. File properties, header extension, marker and script command
 * are singletons: a second one is an error, reported as soon as it is read.
 * Once every object is read the file properties, the header extension and at
 * least one stream-properties object must have been seen. Stream-properties
 * objects fill a 127-slot table by stream number; a later object with the
 * same number replaces an earlier one, numbers outside 1..127 are ignored.
 *
 * Every fold here recurses on the last element, the way the parser's loop
 * extends what it has read, so that reading one more object is one unfolding.
 */
module AsfHeader {
  import opened AsfCore

  predicate IsSingleton(k: Kind) {
    k == FilePropertiesKind || k == HeaderExtensionKind || k == MarkerKind || k == ScriptCommandKind
  }

  function DuplicateMessage(k: Kind): string
    requires IsSingleton(k)
  {
    match k
    case FilePropertiesKind => "Multiple file property object in the asf data."
    case HeaderExtensionKind => "Multiple header extension objects in the asf data."
    case MarkerKind => "Multiple marker objects in the asf data."
    case ScriptCommandKind => "Multiple script command objects in the asf data."
  }

  const NoFileProperties := "No file property object in the asf data."
  const NoHeaderExtension := "No header extension object in the asf data."
  const NoStreams := "No streams in the asf data."

  /** Outcome of the rules: accepted, or rejected at an object index (at the end for a missing object) with a message. */
  datatype HeaderCheck = Accepted | Rejected(at: nat, message: string)

  /** The kinds of the objects, in order. */
  function Kinds(objs: seq<HeaderObject>, kindOf: seq<bv8> -> Kind): (ks: seq<Kind>)
    ensures |ks| == |objs|
  {
    if objs == [] then [] else Kinds(objs[..|objs| - 1], kindOf) + [kindOf(objs[|objs| - 1].id)]
  }

  /** Number of objects of kind `k`. */
  function CountKind(kinds: seq<Kind>, k: Kind): (c: nat)
    ensures c <= |kinds|
  {
    if kinds == [] then 0
    else CountKind(kinds[..|kinds| - 1], k) + (if kinds[|kinds| - 1] == k then 1 else 0)
  }

  /**
   * The loop over the objects: the first singleton seen for the second time
   * rejects, with its index and message; Accepted when there is none.
   */
  function FirstDuplicate(kinds: seq<Kind>): HeaderCheck
  {
    if kinds == [] then Accepted
    else
      var prefix := kinds[..|kinds| - 1];
      var k := kinds[|kinds| - 1];
      match FirstDuplicate(prefix)
      case Rejected(at, msg) => Rejected(at, msg)
      case Accepted =>
        if IsSingleton(k) && CountKind(prefix, k) > 0 then Rejected(|kinds| - 1, DuplicateMessage(k))
        else Accepted
  }

  /** An object of kind `k` after objects of `kinds` repeats a singleton. */
  predicate Repeats(kinds: seq<Kind>, k: Kind) {
    IsSingleton(k) && CountKind(kinds, k) > 0
  }

  /** On kinds without a repeat, one more kind is rejected exactly when it repeats a singleton. */
  lemma FirstDuplicateAppend(kinds: seq<Kind>, k: Kind)
    requires FirstDuplicate(kinds) == Accepted
    ensures FirstDuplicate(kinds + [k]) == if Repeats(kinds, k) then Rejected(|kinds|, DuplicateMessage(k)) else Accepted
  {
    assert (kinds + [k])[..|kinds|] == kinds;
  }

  /** Objects without a repeated singleton: so are all but the last, and the last repeats none of them. */
  lemma AcceptedPrefix(objs: seq<HeaderObject>, kindOf: seq<bv8> -> Kind)
    requires objs != [] && FirstDuplicate(Kinds(objs, kindOf)) == Accepted
    ensures FirstDuplicate(Kinds(objs[..|objs| - 1], kindOf)) == Accepted
    ensures !Repeats(Kinds(objs[..|objs| - 1], kindOf), kindOf(objs[|objs| - 1].id))
  {
    var kinds, k := Kinds(objs[..|objs| - 1], kindOf), kindOf(objs[|objs| - 1].id);
    assert Kinds(objs, kindOf) == kinds + [k];
    assert (kinds + [k])[..|kinds|] == kinds;
  }

  /** Objects whose last one, and only it, repeats a singleton: it repeats one of the others, and the message is its kind's. */
  lemma RejectedLast(objs: seq<HeaderObject>, kindOf: seq<bv8> -> Kind)
    requires objs != [] && FirstDuplicate(Kinds(objs[..|objs| - 1], kindOf)) == Accepted
    requires FirstDuplicate(Kinds(objs, kindOf)).Rejected?
    ensures Repeats(Kinds(objs[..|objs| - 1], kindOf), kindOf(objs[|objs| - 1].id))
    ensures FirstDuplicate(Kinds(objs, kindOf)).message == DuplicateMessage(kindOf(objs[|objs| - 1].id))
  {
    var kinds, k := Kinds(objs[..|objs| - 1], kindOf), kindOf(objs[|objs| - 1].id);
    assert Kinds(objs, kindOf) == kinds + [k];
    FirstDuplicateAppend(kinds, k);
  }

  /** A rejection names a singleton that already occurred before it, with that kind's message. */
  lemma {:induction false} FirstDuplicateRepeats(kinds: seq<Kind>)
    ensures var r := FirstDuplicate(kinds);
      r.Rejected? ==>
        r.at < |kinds| && IsSingleton(kinds[r.at]) && CountKind(kinds[..r.at], kinds[r.at]) > 0 &&
        r.message == DuplicateMessage(kinds[r.at])
    decreases |kinds|
  {
    if kinds != [] {
      var prefix := kinds[..|kinds| - 1];
      FirstDuplicateRepeats(prefix);
      var d := FirstDuplicate(prefix);
      if d.Rejected? {
        assert kinds[..d.at] == prefix[..d.at];
      } else {
        assert kinds[..|kinds| - 1] == prefix;
      }
    }
  }

  /** The checks made after the loop, in the source's order. */
  function CheckRequired(kinds: seq<Kind>): HeaderCheck
  {
    if CountKind(kinds, FilePropertiesKind) == 0 then Rejected(|kinds|, NoFileProperties)
    else if CountKind(kinds, HeaderExtensionKind) == 0 then Rejected(|kinds|, NoHeaderExtension)
    else if CountKind(kinds, StreamPropertiesKind) == 0 then Rejected(|kinds|, NoStreams)
    else Accepted
  }

  /** The whole header check, for a header whose objects all were read. */
  function CheckHeaderObjects(kinds: seq<Kind>): HeaderCheck
  {
    var d := FirstDuplicate(kinds);
    if d.Rejected? then d else CheckRequired(kinds)
  }

  /** No singleton occurs twice. */
  predicate NoRepeat(kinds: seq<Kind>) {
    CountKind(kinds, FilePropertiesKind) <= 1 && CountKind(kinds, HeaderExtensionKind) <= 1 &&
    CountKind(kinds, MarkerKind) <= 1 && CountKind(kinds, ScriptCommandKind) <= 1
  }

  /** What the header rules demand of the object kinds as a whole. */
  predicate HeaderRulesHold(kinds: seq<Kind>) {
    CountKind(kinds, FilePropertiesKind) == 1 &&
    CountKind(kinds, HeaderExtensionKind) == 1 &&
    CountKind(kinds, MarkerKind) <= 1 &&
    CountKind(kinds, ScriptCommandKind) <= 1 &&
    CountKind(kinds, StreamPropertiesKind) >= 1
  }

  lemma {:induction false} CountPrefix(kinds: seq<Kind>, k: Kind, m: nat)
    requires m <= |kinds|
    ensures CountKind(kinds[..m], k) <= CountKind(kinds, k)
    decreases |kinds|
  {
    if m < |kinds| {
      var prefix := kinds[..|kinds| - 1];
      assert kinds[..m] == prefix[..m];
      CountPrefix(prefix, k, m);
    } else {
      assert kinds[..m] == kinds;
    }
  }

  /** A duplicate found in a prefix is counted twice in the whole sequence. */
  lemma DuplicateCountsTwice(kinds: seq<Kind>, at: nat)
    requires at < |kinds| && CountKind(kinds[..at], kinds[at]) > 0
    ensures CountKind(kinds, kinds[at]) >= 2
  {
    var k := kinds[at];
    var p := kinds[..at + 1];
    assert p[..|p| - 1] == kinds[..at];
    assert CountKind(p, k) == CountKind(kinds[..at], k) + 1;
    CountPrefix(kinds, k, at + 1);
  }

  /** The loop finds no duplicate exactly when no singleton occurs twice. */
  lemma {:induction false} NoDuplicateIff(kinds: seq<Kind>)
    ensures FirstDuplicate(kinds) == Accepted <==> NoRepeat(kinds)
    decreases |kinds|
  {
    if kinds != [] {
      var prefix := kinds[..|kinds| - 1];
      NoDuplicateIff(prefix);
      FirstDuplicateRepeats(prefix);
      var d := FirstDuplicate(prefix);
      if d.Rejected? {
        DuplicateCountsTwice(prefix, d.at);
        CountPrefix(kinds, prefix[d.at], |kinds| - 1);
      }
    }
  }

  /**
   * The header's object kinds are accepted exactly when there is one file
   * properties object, one header extension, at most one marker and one script
   * command, and at least one stream.
   */
  lemma HeaderAcceptedIff(kinds: seq<Kind>)
    ensures CheckHeaderObjects(kinds) == Accepted <==> HeaderRulesHold(kinds)
  {
    NoDuplicateIff(kinds);
  }

  /**
   * A rejection after the loop comes with no repeated singleton and names the
   * first missing object, in the order file properties, extension, streams.
   */
  lemma RejectedAtEnd(kinds: seq<Kind>)
    requires CheckHeaderObjects(kinds).Rejected? && CheckHeaderObjects(kinds).at == |kinds|
    ensures NoRepeat(kinds)
    ensures CheckHeaderObjects(kinds) == CheckRequired(kinds)
  {
    NoDuplicateIff(kinds);
    FirstDuplicateRepeats(kinds);
  }

  // ---------------------------------------------------------------------
  // The singleton slots and the stream table

  /** The first object of a kind, which is what a singleton slot keeps. */
  function FirstOfKind(objs: seq<HeaderObject>, kindOf: seq<bv8> -> Kind, k: Kind): (r: Option<HeaderObject>)
  {
    if objs == [] then None
    else
      var prefix := objs[..|objs| - 1];
      match FirstOfKind(prefix, kindOf, k)
      case Some(o) => Some(o)
      case None => if kindOf(objs[|objs| - 1].id) == k then Some(objs[|objs| - 1]) else None
  }

  /** Entry `j` of the kinds is the kind of object `j`. */
  lemma {:induction false} KindsAt(objs: seq<HeaderObject>, kindOf: seq<bv8> -> Kind, j: nat)
    requires j < |objs|
    ensures Kinds(objs, kindOf)[j] == kindOf(objs[j].id)
    decreases |objs|
  {
    if j < |objs| - 1 {
      KindsAt(objs[..|objs| - 1], kindOf, j);
    }
  }

  /**
   * A singleton slot keeps the first object of its kind: empty exactly when
   * there is none, and otherwise an object of that kind with none before it.
   */
  lemma {:induction false} FirstOfKindIsFirst(objs: seq<HeaderObject>, kindOf: seq<bv8> -> Kind, k: Kind)
    ensures FirstOfKind(objs, kindOf, k).None? <==> forall j :: 0 <= j < |objs| ==> kindOf(objs[j].id) != k
    ensures FirstOfKind(objs, kindOf, k).Some? ==> exists j ::
      0 <= j < |objs| && objs[j] == FirstOfKind(objs, kindOf, k).value && kindOf(objs[j].id) == k &&
      forall j' :: 0 <= j' < j ==> kindOf(objs[j'].id) != k
    decreases |objs|
  {
    if objs != [] {
      var prefix := objs[..|objs| - 1];
      FirstOfKindIsFirst(prefix, kindOf, k);
      if FirstOfKind(prefix, kindOf, k).Some? {
        var j :| 0 <= j < |prefix| && prefix[j] == FirstOfKind(prefix, kindOf, k).value && kindOf(prefix[j].id) == k &&
          forall j' :: 0 <= j' < j ==> kindOf(prefix[j'].id) != k;
        assert objs[j] == prefix[j];
      } else {
        assert forall j :: 0 <= j < |prefix| ==> objs[j] == prefix[j];
      }
    }
  }

  /** No object of a kind exactly when its count is 0. */
  lemma {:induction false} CountZeroIff(kinds: seq<Kind>, k: Kind)
    ensures CountKind(kinds, k) == 0 <==> forall j :: 0 <= j < |kinds| ==> kinds[j] != k
    decreases |kinds|
  {
    if kinds != [] {
      CountZeroIff(kinds[..|kinds| - 1], k);
    }
  }

  /** A singleton slot is still empty exactly when no object of its kind was read. */
  lemma FirstOfKindCount(objs: seq<HeaderObject>, kindOf: seq<bv8> -> Kind, k: Kind)
    ensures FirstOfKind(objs, kindOf, k).None? <==> CountKind(Kinds(objs, kindOf), k) == 0
  {
    CountZeroIff(Kinds(objs, kindOf), k);
    FirstOfKindIsFirst(objs, kindOf, k);
    forall j | 0 <= j < |objs| {
      KindsAt(objs, kindOf, j);
    }
  }

  /** Reading one more object: the kinds grow by its kind, a singleton slot fills only if still empty. */
  lemma AppendObject(prev: seq<HeaderObject>, o: HeaderObject, kindOf: seq<bv8> -> Kind, k: Kind)
    ensures Kinds(prev + [o], kindOf) == Kinds(prev, kindOf) + [kindOf(o.id)]
    ensures FirstOfKind(prev + [o], kindOf, k) ==
      if FirstOfKind(prev, kindOf, k).Some? then FirstOfKind(prev, kindOf, k)
      else if kindOf(o.id) == k then Some(o) else None
  {
    assert (prev + [o])[..|prev|] == prev;
  }

  const StreamSlots: nat := 127

  /** `SetStream`: a stream number in 1..127 fills slot `number - 1`; others are ignored. */
  function SetSlot(table: seq<Option<HeaderObject>>, number: int, obj: HeaderObject): (t: seq<Option<HeaderObject>>)
    requires |table| == StreamSlots
    ensures |t| == StreamSlots
    ensures !(1 <= number <= 127) ==> t == table
    ensures 1 <= number <= 127 ==>
      (t[number - 1] == Some(obj) && forall j :: 0 <= j < StreamSlots && j != number - 1 ==> t[j] == table[j])
  {
    if 1 <= number <= 127 then table[number - 1 := Some(obj)] else table
  }

  /** The stream table after registering the stream-properties objects, in order. */
  function RegisterStreams(table: seq<Option<HeaderObject>>, objs: seq<HeaderObject>,
                           kindOf: seq<bv8> -> Kind): (t: seq<Option<HeaderObject>>)
    requires |table| == StreamSlots
    ensures |t| == StreamSlots
  {
    if objs == [] then table
    else
      Register(RegisterStreams(table, objs[..|objs| - 1], kindOf), objs[|objs| - 1], kindOf)
  }

  lemma AppendStream(table: seq<Option<HeaderObject>>, prev: seq<HeaderObject>, o: HeaderObject, kindOf: seq<bv8> -> Kind)
    requires |table| == StreamSlots
    ensures RegisterStreams(table, prev + [o], kindOf) == Register(RegisterStreams(table, prev, kindOf), o, kindOf)
  {
    assert (prev + [o])[..|prev|] == prev;
  }

  /**
   * The singleton slots and the stream table hold what the objects put there:
   * the first object of each singleton kind, and the registered streams.
   */
  predicate SlotValues(objs: seq<HeaderObject>, kindOf: seq<bv8> -> Kind, table0: seq<Option<HeaderObject>>,
                       table: seq<Option<HeaderObject>>, fp: Option<HeaderObject>, he: Option<HeaderObject>,
                       mk: Option<HeaderObject>, sc: Option<HeaderObject>)
    requires |table0| == StreamSlots
  {
    table == RegisterStreams(table0, objs, kindOf) &&
    fp == FirstOfKind(objs, kindOf, FilePropertiesKind) &&
    he == FirstOfKind(objs, kindOf, HeaderExtensionKind) &&
    mk == FirstOfKind(objs, kindOf, MarkerKind) &&
    sc == FirstOfKind(objs, kindOf, ScriptCommandKind)
  }

  /** Whether the object's kind is a singleton whose slot is already taken. */
  predicate Full(k: Kind, fp: Option<HeaderObject>, he: Option<HeaderObject>, mk: Option<HeaderObject>, sc: Option<HeaderObject>) {
    (k == FilePropertiesKind && fp.Some?) || (k == HeaderExtensionKind && he.Some?) ||
    (k == MarkerKind && mk.Some?) || (k == ScriptCommandKind && sc.Some?)
  }

  /** Register one object: a stream-properties object goes to the slot of its stream number. */
  function Register(table: seq<Option<HeaderObject>>, o: HeaderObject, kindOf: seq<bv8> -> Kind): (t: seq<Option<HeaderObject>>)
    requires |table| == StreamSlots
    ensures |t| == StreamSlots
  {
    if kindOf(o.id) == StreamPropertiesKind then SetSlot(table, StreamNumber(o), o) else table
  }

  /** Fill a singleton slot when it is of the object's kind and still empty. */
  function Fill(slot: Option<HeaderObject>, slotKind: Kind, o: HeaderObject, kindOf: seq<bv8> -> Kind): Option<HeaderObject>
  {
    if kindOf(o.id) == slotKind && slot.None? then Some(o) else slot
  }

  /** Reading one more object moves every slot to what the longer list puts there. */
  lemma SlotsStep(prev: seq<HeaderObject>, o: HeaderObject, kindOf: seq<bv8> -> Kind,
                  table0: seq<Option<HeaderObject>>, table: seq<Option<HeaderObject>>,
                  fp: Option<HeaderObject>, he: Option<HeaderObject>,
                  mk: Option<HeaderObject>, sc: Option<HeaderObject>)
    requires |table0| == StreamSlots
    requires SlotValues(prev, kindOf, table0, table, fp, he, mk, sc)
    ensures SlotValues(prev + [o], kindOf, table0, Register(table, o, kindOf),
                       Fill(fp, FilePropertiesKind, o, kindOf), Fill(he, HeaderExtensionKind, o, kindOf),
                       Fill(mk, MarkerKind, o, kindOf), Fill(sc, ScriptCommandKind, o, kindOf))
  {
    AppendObject(prev, o, kindOf, FilePropertiesKind);
    AppendObject(prev, o, kindOf, HeaderExtensionKind);
    AppendObject(prev, o, kindOf, MarkerKind);
    AppendObject(prev, o, kindOf, ScriptCommandKind);
    AppendStream(table0, prev, o, kindOf);
  }

  /**
   * Reading one more object after a clean prefix: it is the first duplicate
   * exactly when its singleton slot is already full.
   */
  lemma {:induction false} DuplicateStep(prev: seq<HeaderObject>, o: HeaderObject, kindOf: seq<bv8> -> Kind,
                                         fp: Option<HeaderObject>, he: Option<HeaderObject>,
                                         mk: Option<HeaderObject>, sc: Option<HeaderObject>)
    requires fp == FirstOfKind(prev, kindOf, FilePropertiesKind) && he == FirstOfKind(prev, kindOf, HeaderExtensionKind)
    requires mk == FirstOfKind(prev, kindOf, MarkerKind) && sc == FirstOfKind(prev, kindOf, ScriptCommandKind)
    requires FirstDuplicate(Kinds(prev, kindOf)) == Accepted
    ensures var k := kindOf(o.id);
      FirstDuplicate(Kinds(prev + [o], kindOf)) == (if Full(k, fp, he, mk, sc) then Rejected(|prev|, DuplicateMessage(k)) else Accepted)
  {
    var k := kindOf(o.id);
    AppendObject(prev, o, kindOf, k);
    FirstOfKindCount(prev, kindOf, k);
    var kinds := Kinds(prev, kindOf);
    assert (kinds + [k])[..|kinds|] == kinds;
  }

  /** Reading one more object: some stream was seen exactly when one was seen before or this is one. */
  lemma {:induction false} StreamCountStep(prev: seq<HeaderObject>, o: HeaderObject, kindOf: seq<bv8> -> Kind)
    ensures CountKind(Kinds(prev + [o], kindOf), StreamPropertiesKind) > 0 <==>
      CountKind(Kinds(prev, kindOf), StreamPropertiesKind) > 0 || kindOf(o.id) == StreamPropertiesKind
  {
    AppendObject(prev, o, kindOf, StreamPropertiesKind);
    var kinds := Kinds(prev, kindOf);
    assert (kinds + [kindOf(o.id)])[..|kinds|] == kinds;
  }

  predicate DeclaresStream(o: HeaderObject, kindOf: seq<bv8> -> Kind, number: int) {
    kindOf(o.id) == StreamPropertiesKind && StreamNumber(o) == number
  }

  /** A slot no object declares keeps what it held. */
  lemma {:induction false} StreamTableUntouched(table: seq<Option<HeaderObject>>, objs: seq<HeaderObject>,
                                                kindOf: seq<bv8> -> Kind, number: int)
    requires |table| == StreamSlots && 1 <= number <= 127
    requires forall j :: 0 <= j < |objs| ==> !DeclaresStream(objs[j], kindOf, number)
    ensures RegisterStreams(table, objs, kindOf)[number - 1] == table[number - 1]
    decreases |objs|
  {
    if objs != [] {
      StreamTableUntouched(table, objs[..|objs| - 1], kindOf, number);
    }
  }

  /** Slot `number - 1` holds the LAST stream-properties object that declares that number. */
  lemma {:induction false} StreamTableLastWins(table: seq<Option<HeaderObject>>, objs: seq<HeaderObject>,
                                               kindOf: seq<bv8> -> Kind, number: int, j: nat)
    requires |table| == StreamSlots && j < |objs| && 1 <= number <= 127
    requires DeclaresStream(objs[j], kindOf, number)
    requires forall j' :: j < j' < |objs| ==> !DeclaresStream(objs[j'], kindOf, number)
    ensures RegisterStreams(table, objs, kindOf)[number - 1] == Some(objs[j])
    decreases |objs|
  {
    if j < |objs| - 1 {
      StreamTableLastWins(table, objs[..|objs| - 1], kindOf, number, j);
      assert !DeclaresStream(objs[|objs| - 1], kindOf, number);
    }
  }

  /** Only stream-properties objects declaring the slot's number ever enter it. */
  lemma {:induction false} StreamTableEntries(table: seq<Option<HeaderObject>>, objs: seq<HeaderObject>,
                                              kindOf: seq<bv8> -> Kind, slot: nat)
    requires |table| == StreamSlots && slot < StreamSlots
    requires RegisterStreams(table, objs, kindOf)[slot] != table[slot]
    ensures exists j ::
      0 <= j < |objs| && DeclaresStream(objs[j], kindOf, slot + 1) && RegisterStreams(table, objs, kindOf)[slot] == Some(objs[j])
    decreases |objs|
  {
    var prefix := objs[..|objs| - 1];
    var o := objs[|objs| - 1];
    if kindOf(o.id) == StreamPropertiesKind && StreamNumber(o) == slot + 1 {
      assert DeclaresStream(objs[|objs| - 1], kindOf, slot + 1);
    } else {
      StreamTableEntries(table, prefix, kindOf, slot);
      var j :| 0 <= j < |prefix| && DeclaresStream(prefix[j], kindOf, slot + 1) &&
        RegisterStreams(table, prefix, kindOf)[slot] == Some(prefix[j]);
      assert objs[j] == prefix[j];
    }
  }
}
