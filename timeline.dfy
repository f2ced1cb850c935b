/** A day counter with one slot of events per elapsed day. */
module Chronology {
  import opened Errors
  import opened Text

  /** A day slot: nothing recorded yet (`None`), or a list of events. */
  datatype Slot<E> = Empty | Events(events: seq<E>)

  /** What may be written to a slot, by its exact type: one event, a list
      (stored as it is), or a value of any other type, named by `str(type(x))`. */
  datatype Item<E> = Single(event: E) | List(events: seq<E>) | Other(typeName: string)

  /** The class-level default date format. */
  function DefaultFormat(day: int): string {
    ShowInt(day) + " days have elapsed."
  }

  /** The message of the TypeError raised for an item of another type. */
  function RejectMessage(typeName: string): string {
    "`" + typeName + "` items cannot be added to the Timeline."
  }

  class Timeline<E> {
    /** `__value`: the current day. */
    var value: nat
    /** `__format`: the function `date` applies to the day. */
    var format: int -> string
    /** One slot per day, index = day. */
    var event: seq<Slot<E>>
    /** The slots an assignment has written to. */
    ghost var written: set<nat>

    ghost predicate Valid()
      reads this
    {
      && |event| == value + 1
      && forall k :: 0 <= k < |event| && k !in written ==> event[k] == Empty
    }

    /** A new timeline is at day 0 with a single empty slot and the default format. */
    constructor ()
      ensures Valid()
      ensures value == 0 && event == [Empty] && written == {}
      ensures format == DefaultFormat
    {
      format := DefaultFormat;
      value := 0;
      event := [Empty];
      written := {};
    }

    /** The `day` property. There is one slot for every day up to and including it. */
    function Day(): (d: nat)
      reads this
      requires Valid()
      ensures d + 1 == |event|
    {
      value
    }

    /** `t[key]`: the stored slot; a slot never written reads as empty. */
    function GetItem(key: nat): (s: Slot<E>)
      reads this
      requires Valid() && key < |event|
      ensures key !in written ==> s == Empty
      ensures s == event[key]
    {
      event[key]
    }

    /** `t[key] = item`: one event is stored wrapped in a list, a list is stored
        as it is, anything else raises TypeError and changes nothing. Only slot
        key changes; the day and the number of slots stay the same. */
    method SetItem(key: nat, item: Item<E>) returns (r: Outcome)
      requires Valid() && key < |event|
      modifies this
      ensures Valid()
      ensures value == old(value) && format == old(format) && |event| == old(|event|)
      ensures r.Fail? <==> item.Other?
      ensures item.Other? ==>
        r == Fail(TypeError(RejectMessage(item.typeName))) && event == old(event) && written == old(written)
      ensures item.Single? ==> event == old(event)[key := Events([item.event])]
      ensures item.List? ==> event == old(event)[key := Events(item.events)]
      ensures !item.Other? ==> written == old(written) + {key}
    {
      match item
      case Single(e) =>
        event := event[key := Events([e])];
        written := written + {key};
        r := Pass;
      case List(es) =>
        event := event[key := Events(es)];
        written := written + {key};
        r := Pass;
      case Other(t) =>
        r := Fail(TypeError(RejectMessage(t)));
    }

    /** The `date` property: the format applied to the current day. */
    function Date(): (s: string)
      reads this
      requires Valid()
      ensures format == DefaultFormat ==> s == ShowInt(Day()) + " days have elapsed."
    {
      format(value)
    }

    /** `progress(days)`, one day by default: each of the `days` steps advances the day by one and
        appends an empty slot; zero or a negative count changes nothing. */
    method Progress(days: int := 1)
      requires Valid()
      modifies this
      ensures Valid()
      ensures days <= 0 ==> value == old(value) && event == old(event)
      ensures days > 0 ==> value == old(value) + days
      ensures event == old(event) + seq(if days > 0 then days else 0, _ => Empty)
      ensures format == old(format) && written == old(written)
    {
      var i := 0;
      while i < days
        invariant 0 <= i <= (if days > 0 then days else 0)
        invariant value == old(value) + i
        invariant event == old(event) + seq(i, _ => Empty)
        invariant format == old(format) && written == old(written)
        invariant Valid()
      {
        value := value + 1;
        event := event + [Empty];
        i := i + 1;
      }
    }

    /** `set_format(f)`: `None` restores the default format. The day and the
        slots are untouched. */
    method SetFormat(f: Option<int -> string>)
      requires Valid()
      modifies this
      ensures Valid()
      ensures value == old(value) && event == old(event) && written == old(written)
      ensures f.None? ==> format == DefaultFormat && Date() == DefaultFormat(value)
      ensures f.Some? ==> format == f.value && Date() == f.value(value)
    {
      match f
      case None => format := DefaultFormat;
      case Some(g) => format := g;
    }
  }
}
