/** Packet number generators: internal/ackhandler/packet_number_generator.go.  The random numbers are inputs. */
module PacketNumbers {
  import opened Common

  const SKIP_PACKET_INITIAL_PERIOD: nat := 256
  const SKIP_PACKET_MAX_PERIOD: nat := 128 * 1024

  class PacketNumberGenerator {
    const skipping: bool
    const maxPeriod: nat
    var next: int
    var nextToSkip: int
    var period: nat

    /** The numbers that were given to packets. */
    ghost var used: set<int>

    constructor Sequential(initial: int)
      ensures Valid() && !skipping && next == initial && used == {}
    {
      skipping, maxPeriod := false, 0;
      next, nextToSkip, period, used := initial, 0, 0, {};
    }

    constructor Skipping(initial: int, initialPeriod: nat, maxPeriod: nat, random: nat)
      requires initialPeriod > 0 && maxPeriod > 0
      ensures Valid() && skipping && next == initial && nextToSkip >= next + 3 && used == {}
    {
      skipping := true;
      this.maxPeriod := maxPeriod;
      next, nextToSkip, period, used := initial, 0, initialPeriod, {};
      new;
      GenerateNewSkip(random);
    }

    ghost predicate Valid()
      reads this
    {
      skipping ==> period > 0 && maxPeriod > 0 && next <= nextToSkip
    }

    /** The number the next call of Pop returns. */
    function Peek(): int
      reads this
    {
      if skipping && next == nextToSkip then next + 1 else next
    }

    /** Every number is popped or skipped, in ascending order; no two numbers in a row are skipped. */
    method Pop(random: nat) returns (skipped: bool, pn: int)
      requires Valid()
      modifies this`next, this`nextToSkip, this`period
      ensures Valid() && pn == old(Peek()) && next == pn + 1
      ensures pn == (if skipped then old(next) + 1 else old(next))
      ensures skipped ==> skipping && !(skipping && next == nextToSkip)
    {
      pn := next;
      if skipping && next == nextToSkip {
        pn := pn + 1;
        next := next + 2;
        GenerateNewSkip(random);
        return true, pn;
      }
      next := next + 1;
      return false, pn;
    }

    method GenerateNewSkip(random: nat)
      requires period > 0 && maxPeriod > 0
      modifies this`nextToSkip, this`period
      ensures period > 0 && next + 3 <= nextToSkip < next + 3 + 2 * old(period)
      ensures period <= maxPeriod
    {
      nextToSkip := next + 3 + random % (2 * period);
      period := if 2 * period < maxPeriod then 2 * period else maxPeriod;
    }
  }
}
