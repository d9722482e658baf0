/** A wall clock whose readings never go backwards. */
module Clock {

  class UtcClock {
    var now: int

    method Read() returns (reading: int)
      modifies this
      ensures now == reading >= old(now)
    {
      var elapsed: nat :| true;
      now := now + elapsed;
      reading := now;
    }
  }
}
