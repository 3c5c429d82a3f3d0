/** FOutputDeviceStatsWrapper (OutputDeviceStatsWrapper.cpp): an output
  * device that counts the messages passing through it per verbosity and
  * passes them on to a wrapped device, if there is one. */
module OutputDeviceStats {
  import opened Wrappers

  /** ELogVerbosity::Type, a uint8 where lower is more severe: 0 is
    * NoLogging, 1 Fatal, 2 Error, 3 Warning and so on. */
  type Verbosity = v: nat | v < 256

  /** A message as handed on to the wrapped device, with the time of the
    * second Serialize overload. */
  datatype Message = Message(text: string, verbosity: Verbosity, category: string, time: Option<real>)

  /** GetNumMessages (OutputDeviceStatsWrapper.cpp:30-34) on the counter map:
    * a verbosity never counted has 0 messages. */
  function NumMessages(counts: map<Verbosity, nat>, v: Verbosity): nat
  {
    if v in counts then counts[v] else 0
  }

  /** The messages of verbosity 1 up to v; NoLogging (0) is never included. */
  function NumMessagesWorseThan(counts: map<Verbosity, nat>, v: Verbosity): nat
  {
    if v == 0 then 0 else NumMessages(counts, v) + NumMessagesWorseThan(counts, v - 1)
  }

  /** IncrementNumMessages (OutputDeviceStatsWrapper.cpp:48-51) on the map:
    * FindOrAdd with 0, then incremented. */
  function Increment(counts: map<Verbosity, nat>, v: Verbosity): map<Verbosity, nat>
  {
    counts[v := NumMessages(counts, v) + 1]
  }

  class OutputDeviceStatsWrapper {
    /** Whether the wrapped FOutputDevice pointer is non-null. */
    const hasDevice: bool
    /** NumMessagesByVerbosity. */
    var counts: map<Verbosity, nat>
    /** What has been passed on to the wrapped device, in order. */
    var forwarded: seq<Message>

    /** The constructor (OutputDeviceStatsWrapper.cpp:5-7). */
    constructor (hasDevice: bool)
      ensures this.hasDevice == hasDevice
      ensures counts == map[] && forwarded == []
    {
      this.hasDevice := hasDevice;
      counts := map[];
      forwarded := [];
    }

    /** IncrementNumMessages (OutputDeviceStatsWrapper.cpp:48-51). */
    method IncrementNumMessages(v: Verbosity)
      modifies this
      ensures counts == Increment(old(counts), v)
      ensures forwarded == old(forwarded)
    {
      var current := if v in counts then counts[v] else 0;
      counts := counts[v := current + 1];
    }

    /** Serialize (OutputDeviceStatsWrapper.cpp:9-17): the message is
      * counted, also without a wrapped device, and passed on only to a
      * wrapped device. */
    method Serialize(text: string, v: Verbosity, category: string)
      modifies this
      ensures counts == Increment(old(counts), v)
      ensures forwarded == old(forwarded) + (if hasDevice then [Message(text, v, category, None)] else [])
    {
      IncrementNumMessages(v);
      if hasDevice {
        forwarded := forwarded + [Message(text, v, category, None)];
      }
    }

    /** The Serialize overload with a time (OutputDeviceStatsWrapper.cpp:19-28),
      * counted and passed on in the same way. */
    method SerializeWithTime(text: string, v: Verbosity, category: string, time: real)
      modifies this
      ensures counts == Increment(old(counts), v)
      ensures forwarded == old(forwarded) + (if hasDevice then [Message(text, v, category, Some(time))] else [])
    {
      IncrementNumMessages(v);
      if hasDevice {
        forwarded := forwarded + [Message(text, v, category, Some(time))];
      }
    }

    /** GetNumMessages (OutputDeviceStatsWrapper.cpp:30-34). */
    function GetNumMessages(v: Verbosity): nat
      reads this
    {
      NumMessages(counts, v)
    }

    /** GetNumMessagesWorseThan (OutputDeviceStatsWrapper.cpp:36-46): the loop
      * from v down to 1. */
    method GetNumMessagesWorseThan(v: Verbosity) returns (result: nat)
      ensures result == NumMessagesWorseThan(counts, v)
    {
      result := 0;
      var idx: int := v;
      while idx > 0
        invariant 0 <= idx <= v
        invariant result + NumMessagesWorseThan(counts, idx) == NumMessagesWorseThan(counts, v)
      {
        result := result + GetNumMessages(idx);
        idx := idx - 1;
      }
    }
  }

  // ---------------------------------------------------------------------
  // Properties of the counters.

  /** Counting a message adds one to its verbosity and changes no other
    * count. */
  lemma IncrementCountsOne(counts: map<Verbosity, nat>, v: Verbosity, w: Verbosity)
    ensures NumMessages(Increment(counts, v), w) ==
      NumMessages(counts, w) + (if w == v then 1 else 0)
  {
  }

  /** A message of verbosity w raises the count of the messages worse than v
    * by one exactly when 1 <= w <= v; NoLogging messages are never among
    * them. */
  lemma {:induction false} IncrementWorseThan(counts: map<Verbosity, nat>, w: Verbosity, v: Verbosity)
    ensures NumMessagesWorseThan(Increment(counts, w), v) ==
      NumMessagesWorseThan(counts, v) + (if 1 <= w <= v then 1 else 0)
  {
    if v > 0 {
      IncrementWorseThan(counts, w, v - 1);
      IncrementCountsOne(counts, w, v);
    }
  }

  /** The count of messages worse than v does not decrease with v. */
  lemma {:induction false} WorseThanMonotonic(counts: map<Verbosity, nat>, v: Verbosity, u: Verbosity)
    requires v <= u
    ensures NumMessagesWorseThan(counts, v) <= NumMessagesWorseThan(counts, u)
    decreases u - v
  {
    if v < u {
      WorseThanMonotonic(counts, v, u - 1);
    }
  }

  /** With nothing counted every total is 0. */
  lemma {:induction false} NothingCounted(v: Verbosity)
    ensures NumMessagesWorseThan(map[], v) == 0
  {
    if v > 0 {
      NothingCounted(v - 1);
    }
  }

  /** A null wrapped device still counts: two warnings and an error on a
    * wrapper of no device give three messages worse than Warning, two of
    * them warnings, and nothing passed on. */
  method CountsWithoutDevice() returns (warnings: nat, worseThanWarning: nat, passedOn: nat)
    ensures warnings == 2 && worseThanWarning == 3 && passedOn == 0
  {
    var stats := new OutputDeviceStatsWrapper(false);
    stats.Serialize("a", 3, "Test");
    stats.Serialize("b", 2, "Test");
    stats.SerializeWithTime("c", 3, "Test", 1.5);
    warnings := stats.GetNumMessages(3);
    var counts := stats.counts;
    assert NumMessagesWorseThan(counts, 1) == 0;
    assert NumMessagesWorseThan(counts, 2) == 1;
    worseThanWarning := stats.GetNumMessagesWorseThan(3);
    passedOn := |stats.forwarded|;
  }
}
