/** Reassembly of PSI sections from packet payloads (src/mpegts_psi.cpp, class PSIAccumulator). */
module PsiAccumulation {
  import opened Bytes
  import opened Psi
  import Crc32

  /** The value of an accumulator. */
  datatype Acc = Acc(buffer: seq<Byte>, expectedLength: nat, complete: bool, synced: bool)
  {
    /** A complete accumulator holds at least one whole section. */
    predicate Consistent() {
      complete ==> 0 < expectedLength <= |buffer|
    }
  }

  const EMPTY := Acc([], 0, false, false)

  /** The octets a payload contributes: after the pointer field when a unit starts. A start whose
      pointer reaches the end of the payload contributes nothing and loses synchronisation. */
  function Contribution(payload: seq<Byte>, start: bool): Option<seq<Byte>> {
    if !start || payload == [] then Some(payload) else
    if payload[0] < |payload| - 1 then Some(payload[1 + payload[0]..]) else None
  }

  /** The announced size of a section, from its first three octets. */
  function AnnouncedSize(buffer: seq<Byte>): nat {
    if |buffer| < 3 then 0 else 3 + U12(buffer[1], buffer[2])
  }

  /** The accumulator after `addData`. */
  function Added(a: Acc, payload: seq<Byte>, start: bool): Acc {
    var piece := Contribution(payload, start);
    if piece.None? then EMPTY else
    if !start && !a.synced then a else
    Grown(if start then EMPTY else a, piece.value)
  }

  /** The accumulator with some more octets of its section. */
  function Grown(base: Acc, piece: seq<Byte>): Acc {
    var buffer := base.buffer + piece;
    var expected := if base.expectedLength == 0 then AnnouncedSize(buffer) else base.expectedLength;
    Acc(buffer, expected, base.complete || 0 < expected <= |buffer|, true)
  }

  /** The result of `addData`. */
  predicate Completes(a: Acc, payload: seq<Byte>, start: bool) {
    var b := Added(a, payload, start);
    b.synced && 0 < b.expectedLength <= |b.buffer|
  }

  /** The section `getSection` hands out. */
  function Section(a: Acc): seq<Byte>
    requires a.Consistent()
  {
    if a.complete then a.buffer[..a.expectedLength] else []
  }

  /** Where the octets come from, case by case. */
  lemma AddedCases(a: Acc, data: seq<Byte>, start: bool)
    ensures var ready := EMPTY.(synced := true);
      Added(a, data, start) ==
        if !start then if a.synced then Grown(a, data) else a
        else if data == [] then Grown(ready, [])
        else if data[0] < |data[1..]| then Grown(ready, data[1..][data[0]..])
        else EMPTY
  {
    if start && data != [] && data[0] < |data| - 1 {
      assert data[1..][data[0]..] == data[1 + data[0]..];
    }
  }

  class PSIAccumulator {
    var buffer: seq<Byte>
    var expectedLength: nat
    var complete: bool
    var synced: bool

    constructor ()
      ensures View() == EMPTY
    {
      buffer, expectedLength, complete, synced := [], 0, false, false;
    }

    ghost function View(): Acc
      reads this
    {
      Acc(buffer, expectedLength, complete, synced)
    }

    method Reset()
      modifies this
      ensures View() == EMPTY
    {
      buffer, expectedLength, complete, synced := [], 0, false, false;
    }

    method AddData(data: seq<Byte>, payloadUnitStart: bool) returns (done: bool)
      requires View().Consistent()
      modifies this
      ensures View() == Added(old(View()), data, payloadUnitStart) && View().Consistent()
      ensures done ==> complete
      ensures done == Completes(old(View()), data, payloadUnitStart)
    {
      AddedCases(View(), data, payloadUnitStart);
      hide Added;
      hide Grown;
      var rest := data;
      if payloadUnitStart {
        Reset();
        if |rest| > 0 {
          var pointer := rest[0];
          rest := rest[1..];
          if pointer < |rest| {
            rest := rest[pointer..];
          } else {
            return false;
          }
        }
        synced := true;
      }
      if !synced {
        return false;
      }
      done := TakeIn(rest);
    }

    /** The part of `addData` that takes in octets of the section. */
    method TakeIn(rest: seq<Byte>) returns (done: bool)
      requires View().Consistent() && synced
      modifies this
      ensures View() == Grown(old(View()), rest) && View().Consistent() && synced
      ensures done == (0 < expectedLength <= |buffer|) && (done ==> complete)
    {
      hide U12;
      buffer := buffer + rest;
      if expectedLength == 0 && |buffer| >= 3 {
        var sectionLength := U12(buffer[1], buffer[2]);
        expectedLength := 3 + sectionLength;
      }
      if expectedLength > 0 && |buffer| >= expectedLength {
        complete := true;
        return true;
      }
      return false;
    }

    method GetSection() returns (section: seq<Byte>)
      requires View().Consistent()
      modifies this
      ensures section == Section(old(View()))
      ensures View() == if old(complete) then EMPTY else old(View())
    {
      if !complete {
        return [];
      }
      section := buffer[..expectedLength];
      Reset();
    }
  }

  // ------------------------------------------------------------------------------------------
  // Reassembly does not depend on fragmentation
  // ------------------------------------------------------------------------------------------

  /** A section as its header announces it. */
  predicate IsSection(s: seq<Byte>) {
    |s| >= 3 && |s| == AnnouncedSize(s)
  }

  /** The accumulator holds `received`, a proper part of the section. */
  predicate Holds(a: Acc, section: seq<Byte>, received: seq<Byte>) {
    received < section && a == Acc(received, AnnouncedSize(received), false, true)
  }

  /** What arrives next, after `received`: more of the section and then any stuffing. */
  predicate Continues(section: seq<Byte>, received: seq<Byte>, piece: seq<Byte>) {
    received + piece <= section || section <= received + piece
  }

  lemma AnnouncedByPrefix(section: seq<Byte>, buffer: seq<Byte>)
    requires IsSection(section) && |buffer| >= 3 && (buffer <= section || section <= buffer)
    ensures AnnouncedSize(buffer) == |section|
  {}

  /** A start with a pointer field, skipped octets and a first non-empty fragment. */
  lemma SectionStarts(a: Acc, section: seq<Byte>, skipped: seq<Byte>, fragment: seq<Byte>)
    requires IsSection(section) && |skipped| < 256 && fragment != []
    requires Continues(section, [], fragment)
    ensures var payload := [|skipped|] + skipped + fragment; var b := Added(a, payload, true);
      && Completes(a, payload, true) == (|fragment| >= |section|)
      && (if |fragment| < |section| then Holds(b, section, fragment)
          else b.Consistent() && b.complete && Section(b) == section)
  {
    var payload := [|skipped|] + skipped + fragment;
    assert payload[1 + |skipped|..] == fragment;
    assert [] + fragment == fragment;
    if |fragment| >= 3 { AnnouncedByPrefix(section, fragment); }
    if |fragment| >= |section| { assert fragment[..|section|] == section; }
  }

  /** A continuation: the section is complete exactly when its last octet has arrived. */
  lemma SectionContinues(a: Acc, section: seq<Byte>, received: seq<Byte>, piece: seq<Byte>)
    requires IsSection(section) && Holds(a, section, received) && Continues(section, received, piece)
    ensures var b := Added(a, piece, false); var total := received + piece;
      && Completes(a, piece, false) == (|total| >= |section|)
      && (if |total| < |section| then Holds(b, section, total)
          else b.Consistent() && b.complete && Section(b) == section)
  {
    var total := received + piece;
    if |total| >= 3 { AnnouncedByPrefix(section, total); }
    if |received| >= 3 { AnnouncedByPrefix(section, received); }
    if |total| >= |section| { assert total[..|section|] == section; }
  }

  // ------------------------------------------------------------------------------------------
  // What any payload does
  // ------------------------------------------------------------------------------------------

  /** Without a start before it, a payload changes nothing. */
  lemma IgnoredUntilStart(a: Acc, payload: seq<Byte>)
    requires !a.synced
    ensures Added(a, payload, false) == a && !Completes(a, payload, false)
  {}

  /** A start whose pointer leads to the end of the payload or beyond it loses synchronisation. */
  lemma PointerPastEnd(a: Acc, payload: seq<Byte>)
    requires payload != [] && 1 + payload[0] as int >= |payload|
    ensures Added(a, payload, true) == Acc([], 0, false, false) && !Completes(a, payload, true)
  {}

  /** A start without octets only begins. */
  lemma EmptyStart(a: Acc)
    ensures Added(a, [], true) == Acc([], 0, false, true) && !Completes(a, [], true)
  {}

  /** The expected length is what octets 1 and 2 announce, once they are there. */
  predicate Regular(a: Acc) {
    a.expectedLength == if |a.buffer| < 3 then 0 else 3 + a.buffer[1] as int % 16 * 256 + a.buffer[2] as int
  }

  lemma AddedRegular(a: Acc, payload: seq<Byte>, start: bool)
    requires Regular(a)
    ensures Regular(Added(a, payload, start))
  {}

  /** A section that completes has exactly the size that its own header announces. */
  lemma CompletesRegular(a: Acc, payload: seq<Byte>, start: bool)
    requires Regular(a) && Completes(a, payload, start)
    ensures var b := Added(a, payload, start);
      && b.expectedLength <= |b.buffer|
      && var section := b.buffer[..b.expectedLength]; |section| >= 3 && Announced(section) == |section|
  {
    AddedRegular(a, payload, start);
    hide Added;
  }

  /** Encoded tables are sections. */
  lemma PatIsSection(t: Pat)
    requires WellFormedPat(t)
    ensures IsSection(EncodePat(t)) && DecodePat(EncodePat(t)) == Some(t)
  {
    hide Crc32.Crc;
    hide DecodeHeader;
    hide EncodeHeader;
    hide Crc32.WordBytes;
    var d := EncodePat(t);
    PatRoundTrip(t, []);
    assert d + [] == d;
    hide DecodePat;
    assert d == EncodeHeader(t.header) + d[8..];
    HeaderRoundTrip(t.header, d[8..]);
    HeaderLength(d);
  }

  lemma PmtIsSection(t: Pmt)
    requires WellFormedPmt(t)
    ensures IsSection(EncodePmt(t)) && DecodePmt(EncodePmt(t)) == Some(t)
  {
    hide Crc32.Crc;
    hide DecodeHeader;
    hide EncodeHeader;
    hide Crc32.WordBytes;
    hide EncodeStreams;
    hide EncodeProgramInfo;
    var d := EncodePmt(t);
    PmtRoundTrip(t, []);
    assert d + [] == d;
    hide DecodePmt;
    assert d == EncodeHeader(t.header) + d[8..];
    HeaderRoundTrip(t.header, d[8..]);
    HeaderLength(d);
  }
}
