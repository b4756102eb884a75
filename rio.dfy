/**
 * One end of a socket as the proxy uses it: read line by line through a buffered reader
 * (`rio_t` with `Rio_readlineb_w`) and written with `Rio_writen_w`.
 */
module Rio {

  class Connection {
    /**
     * What successive line reads return, each a non-empty run of bytes; after the last one a
     * read returns 0, which stands for end of file and for a read error alike.
     */
    const incoming: seq<string>
    /** How many reads have returned data so far. */
    var pos: nat
    /** Every write made to the connection, in order. */
    var outgoing: seq<string>

    ghost predicate Valid()
      reads this
    {
      pos <= |incoming| && forall i :: 0 <= i < |incoming| ==> incoming[i] != []
    }

    /** The reads still to come. */
    ghost function Remaining(): seq<string>
      reads this
      requires Valid()
    {
      incoming[pos..]
    }

    constructor (incoming: seq<string>)
      requires forall i :: 0 <= i < |incoming| ==> incoming[i] != []
      ensures Valid() && this.incoming == incoming && pos == 0 && outgoing == []
    {
      this.incoming := incoming;
      pos := 0;
      outgoing := [];
    }

    /** One line read: the bytes read, or the empty string for a read that returns 0. */
    method ReadLine() returns (line: string)
      requires Valid()
      modifies this`pos
      ensures Valid()
      ensures old(pos) < |incoming| ==> line == incoming[old(pos)] && pos == old(pos) + 1
      ensures old(pos) == |incoming| ==> line == [] && pos == old(pos)
    {
      if pos < |incoming| {
        line := incoming[pos];
        pos := pos + 1;
      } else {
        line := [];
      }
    }

    /** Writes all of `data`; a write error is reported and otherwise ignored by the callers. */
    method Write(data: string)
      modifies this`outgoing
      ensures outgoing == old(outgoing) + [data]
    {
      outgoing := outgoing + [data];
    }
  }
}
