/** The earliest revision (top-level `TextBasedGame.py`): rooms are objects
    that point at each other, and the option menu keeps whole lower-cased
    option strings. */
module Stub {
  import opened Kinds
  import opened Text

  /** A room with its four neighbour slots. The stub never assigns an item;
      `item` stays `None`. */
  class Room {
    var up: Room?
    var down: Room?
    var left: Room?
    var right: Room?
    var item: Option<ItemType>

    function Neighbor(d: Direction): Room?
      reads this
    {
      match d
      case Up => up
      case Down => down
      case Left => left
      case Right => right
    }

    constructor ()
      ensures forall d :: Neighbor(d) == null
      ensures item == None
    {
      up, down, left, right := null, null, null, null;
      item := None;
    }

    /** `self.adjacentRooms[d] = room` alone. */
    method SetSlot(d: Direction, room: Room?)
      modifies this
      ensures Neighbor(d) == room
      ensures forall e :: e != d ==> Neighbor(e) == old(Neighbor(e))
      ensures item == old(item)
    {
      match d
      case Up => up := room;
      case Down => down := room;
      case Left => left := room;
      case Right => right := room;
    }

    /** `setAdjacent`: `self[d] = room`, then `room[opposite(d)] = self`.
        When `room` is this very room both of its slots are written. */
    method SetAdjacent(d: Direction, room: Room)
      modifies this, room
      ensures Neighbor(d) == room
      ensures room.Neighbor(Opposite(d)) == this
      ensures forall e :: e != d && (room != this || e != Opposite(d)) ==> Neighbor(e) == old(Neighbor(e))
      ensures forall e :: e != Opposite(d) && (room != this || e != d) ==> room.Neighbor(e) == old(room.Neighbor(e))
      ensures item == old(item) && room.item == old(room.item)
    {
      SetSlot(d, room);
      room.SetSlot(Opposite(d), this);
    }
  }

  /** The test the stub's `getSelection` applies to a line: its lower-cased
      form is non-empty, and the first character of that, as a
      one-character string, is one of the stored options. */
  predicate Accepted(options: seq<string>, line: string) {
    var choice := Lower(line);
    |choice| > 0 && [choice[0]] in options
  }

  /** The stub's prompt loop: the first accepted line is returned whole and
      lower-cased, without stripping. */
  function Select(options: seq<string>, lines: seq<string>): (r: Option<string>)
    ensures r.Some? <==> exists k :: 0 <= k < |lines| && Accepted(options, lines[k])
    ensures r.Some? ==> exists k :: 0 <= k < |lines| && Accepted(options, lines[k]) && r.value == Lower(lines[k])
                               && forall j :: 0 <= j < k ==> !Accepted(options, lines[j])
  {
    if lines == [] then None
    else if Accepted(options, lines[0]) then Some(Lower(lines[0]))
    else
      var r := Select(options, lines[1..]);
      assert forall k :: 1 <= k < |lines| ==> lines[k] == lines[1..][k - 1];
      r
  }

  /** Python lowers the dotted capital I to 'i' and a combining dot, so the
      line is accepted where "i" is an option and returned with two
      characters. */
  lemma SelectDottedCapital(options: seq<string>, rest: seq<string>)
    requires "i" in options
    ensures Select(options, ["\U{130}"] + rest) == Some(['i', '\U{307}'])
  {
    assert Lower("\U{130}") == ['i', '\U{307}'];
    assert Accepted(options, "\U{130}");
  }

  class OptionSelector {
    var options: seq<string>
    var messages: seq<string>

    constructor ()
      ensures options == [] && messages == []
    {
      options := [];
      messages := [];
    }

    /** `addOption`: the whole code, lower-cased, is appended. */
    method AddOption(code: string, message: string)
      modifies this
      ensures options == old(options) + [Lower(code)]
      ensures messages == old(messages) + [message]
    {
      options := options + [Lower(code)];
      messages := messages + [message];
    }

    method GetSelection(lines: seq<string>) returns (r: Option<string>)
      ensures r == Select(options, lines)
    {
      var i := 0;
      while i < |lines|
        invariant 0 <= i <= |lines|
        invariant Select(options, lines) == Select(options, lines[i..])
      {
        var choice := Lower(lines[i]);
        if |choice| > 0 && [choice[0]] in options {
          assert lines[i..][0] == lines[i];
          r := Some(choice);
          return;
        }
        assert lines[i..][1..] == lines[i + 1..];
        i := i + 1;
      }
      r := None;
    }
  }

  /** A multi-character option can never be chosen: only one-character
      strings are compared against the options. */
  lemma LongOptionUnreachable(options: seq<string>, lines: seq<string>, code: string)
    requires |code| != 1
    ensures Select(options, lines) == Select(RemoveAll(options, code), lines)
  {
    assert forall line :: Accepted(options, line) <==> Accepted(RemoveAll(options, code), line) by {
      forall line ensures Accepted(options, line) <==> Accepted(RemoveAll(options, code), line) {
        if |line| > 0 {
          RemoveAllMembers(options, code, [Lower(line)[0]]);
        }
      }
    }
    SelectCongruent(options, RemoveAll(options, code), lines);
  }

  function RemoveAll(s: seq<string>, x: string): (r: seq<string>)
    ensures forall y :: y in r <==> y in s && y != x
  {
    if s == [] then []
    else (if s[0] == x then [] else [s[0]]) + RemoveAll(s[1..], x)
  }

  lemma RemoveAllMembers(s: seq<string>, x: string, y: string)
    requires y != x
    ensures y in RemoveAll(s, x) <==> y in s
  {
  }

  lemma {:induction false} SelectCongruent(o1: seq<string>, o2: seq<string>, lines: seq<string>)
    requires forall line :: Accepted(o1, line) <==> Accepted(o2, line)
    ensures Select(o1, lines) == Select(o2, lines)
  {
    if lines != [] {
      SelectCongruent(o1, o2, lines[1..]);
    }
  }
}
