/** The recall history of the input bar: the submitted entries, oldest first, and a cursor
    that walks over them with Up (older) and Down (newer). */
module History {
  import opened Util

  class InputHistory {
    var entries: seq<string>
    var cursor: nat

    /** The cursor is at an entry or one past the newest. */
    ghost predicate Valid()
      reads this
    {
      cursor <= |entries|
    }

    /** `InputHistory::new`: no entries, cursor at 0. */
    constructor ()
      ensures Valid() && entries == [] && cursor == 0
    {
      entries := [];
      cursor := 0;
    }

    /** `push`: a non-empty entry is appended, an empty one ignored; either way the cursor
        moves past the newest entry. */
    method Push(entry: string)
      requires Valid()
      modifies this
      ensures Valid()
      ensures entries == if entry == "" then old(entries) else old(entries) + [entry]
      ensures cursor == |entries|
    {
      if entry != "" {
        entries := entries + [entry];
      }
      cursor := |entries|;
    }

    /** `up`: above the oldest entry the cursor steps back and yields the entry it now
        names; at the oldest it stays and yields the oldest again (None when empty). */
    method Up() returns (r: Option<string>)
      requires Valid()
      modifies this
      ensures Valid() && entries == old(entries)
      ensures old(cursor) > 0 ==> cursor == old(cursor) - 1 && r == Some(entries[cursor])
      ensures old(cursor) == 0 ==> cursor == 0 && r == (if entries == [] then None else Some(entries[0]))
    {
      if cursor > 0 {
        cursor := cursor - 1;
        r := Some(entries[cursor]);
      } else {
        r := if |entries| > 0 then Some(entries[0]) else None;
      }
    }

    /** `down`: below the newest entry the cursor steps forward and yields that entry;
        otherwise it moves past the newest and yields None, clearing the input. */
    method Down() returns (r: Option<string>)
      requires Valid()
      modifies this
      ensures Valid() && entries == old(entries)
      ensures old(cursor) + 1 < |entries| ==> cursor == old(cursor) + 1 && r == Some(entries[cursor])
      ensures old(cursor) + 1 >= |entries| ==> cursor == |entries| && r == None
    {
      if cursor + 1 < |entries| {
        cursor := cursor + 1;
        r := Some(entries[cursor]);
      } else {
        cursor := |entries|;
        r := None;
      }
    }
  }

  /** On an empty history both directions yield nothing. */
  method EmptyRecall() returns (up: Option<string>, down: Option<string>)
    ensures up == None && down == None
  {
    var h := new InputHistory();
    up := h.Up();
    down := h.Down();
  }

  /** An empty submission is not recorded: Up still yields nothing. */
  method EmptyEntryIgnored() returns (up: Option<string>)
    ensures up == None
  {
    var h := new InputHistory();
    h.Push("");
    up := h.Up();
  }

  /** After "first" and "second", Up, Up, Up, Down, Down yield second, first, first (the cursor
      stays at the oldest), second, and then nothing. */
  method PushAndRecall() returns (results: seq<Option<string>>)
    ensures results == [Some("second"), Some("first"), Some("first"), Some("second"), None]
  {
    var h := new InputHistory();
    h.Push("first");
    h.Push("second");
    var a := h.Up();
    var b := h.Up();
    var c := h.Up();
    var d := h.Down();
    var e := h.Down();
    results := [a, b, c, d, e];
  }
}
