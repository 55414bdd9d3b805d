// The admission queue's numbers: permits taken from the semaphore and three
// gauges.  Each is a separate atomic of the program.
module Gauges {

  datatype Counters = Counters(held: int, used: int, pending: int, queued: int) {
    function Permits(n: int): Counters { this.(held := held + n) }
    function Uses(n: int): Counters { this.(used := used + n) }
    function Pendings(n: int): Counters { this.(pending := pending + n) }
    function Queues(n: int): Counters { this.(queued := queued + n) }
  }
}
