/** The table that turns the coalesced changes of one fd into one epoll_ctl call. */
module EpollTable {
  type mask = bv32

  // EV_* event bits and EV_CHANGE_* bits
  const EV_READ: mask := 0x02
  const EV_WRITE: mask := 0x04
  const EV_SIGNAL: mask := 0x08
  const EV_PERSIST: mask := 0x10
  const EV_ET: mask := 0x20
  const EV_CLOSED: mask := 0x80
  const CHANGE_ADD: mask := 0x01
  const CHANGE_DEL: mask := 0x02

  // epoll event bits and operations
  const IN: mask := 0x001
  const OUT: mask := 0x004
  const HUP: mask := 0x2000
  const EPOLLET: mask := 0x8000_0000
  const CTL_ADD: int := 1
  const CTL_DEL: int := 2
  const CTL_MOD: int := 3

  /** struct event_change */
  datatype Change = Change(fd: int, oldEvents: mask, readChange: mask, writeChange: mask, closeChange: mask)

  /** struct operation */
  datatype Row = Row(events: mask, op: int)

  /** EPOLL_OP_TABLE_INDEX, split into the part that names the old events and the part that names the changes */
  function OldIndex(ch: Change): bv3 {
    ((((ch.oldEvents & (EV_READ | EV_WRITE)) << 5) | ((ch.oldEvents & EV_CLOSED) << 1)) >> 6) as bv3
  }

  function ChangeIndex(ch: Change): bv6 {
    ((ch.closeChange & 3) | ((ch.readChange & 3) << 2) | ((ch.writeChange & 3) << 4)) as bv6
  }

  /** Rows 0 to 63 of the table: no kind enabled before. */
  function Rows0(i: bv6): Row {
    match i
    case 0 => Row(0, 0)
    case 1 => Row(HUP, CTL_ADD)
    case 2 => Row(HUP, CTL_DEL)
    case 3 => Row(0, 255)
    case 4 => Row(IN, CTL_ADD)
    case 5 => Row(IN | HUP, CTL_ADD)
    case 6 => Row(IN, CTL_ADD)
    case 7 => Row(0, 255)
    case 8 => Row(IN, CTL_DEL)
    case 9 => Row(HUP, CTL_ADD)
    case 10 => Row(IN | HUP, CTL_DEL)
    case 11 => Row(0, 255)
    case 12 => Row(0, 255)
    case 13 => Row(0, 255)
    case 14 => Row(0, 255)
    case 15 => Row(0, 255)
    case 16 => Row(OUT, CTL_ADD)
    case 17 => Row(OUT | HUP, CTL_ADD)
    case 18 => Row(OUT, CTL_ADD)
    case 19 => Row(0, 255)
    case 20 => Row(IN | OUT, CTL_ADD)
    case 21 => Row(IN | OUT | HUP, CTL_ADD)
    case 22 => Row(IN | OUT, CTL_ADD)
    case 23 => Row(0, 255)
    case 24 => Row(OUT, CTL_ADD)
    case 25 => Row(OUT | HUP, CTL_ADD)
    case 26 => Row(OUT, CTL_ADD)
    case 27 => Row(0, 255)
    case 28 => Row(0, 255)
    case 29 => Row(0, 255)
    case 30 => Row(0, 255)
    case 31 => Row(0, 255)
    case 32 => Row(OUT, CTL_DEL)
    case 33 => Row(HUP, CTL_ADD)
    case 34 => Row(OUT | HUP, CTL_DEL)
    case 35 => Row(0, 255)
    case 36 => Row(IN, CTL_ADD)
    case 37 => Row(IN | HUP, CTL_ADD)
    case 38 => Row(IN, CTL_ADD)
    case 39 => Row(0, 255)
    case 40 => Row(IN | OUT, CTL_DEL)
    case 41 => Row(HUP, CTL_ADD)
    case 42 => Row(IN | OUT | HUP, CTL_DEL)
    case 43 => Row(0, 255)
    case 44 => Row(0, 255)
    case 45 => Row(0, 255)
    case 46 => Row(0, 255)
    case 47 => Row(0, 255)
    case 48 => Row(0, 255)
    case 49 => Row(0, 255)
    case 50 => Row(0, 255)
    case 51 => Row(0, 255)
    case 52 => Row(0, 255)
    case 53 => Row(0, 255)
    case 54 => Row(0, 255)
    case 55 => Row(0, 255)
    case 56 => Row(0, 255)
    case 57 => Row(0, 255)
    case 58 => Row(0, 255)
    case 59 => Row(0, 255)
    case 60 => Row(0, 255)
    case 61 => Row(0, 255)
    case 62 => Row(0, 255)
    case _ => Row(0, 255)
  }

  /** Rows 64 to 127 of the table: read enabled before. */
  function Rows1(i: bv6): Row {
    match i
    case 0 => Row(0, 0)
    case 1 => Row(IN | HUP, CTL_MOD)
    case 2 => Row(IN, CTL_MOD)
    case 3 => Row(0, 255)
    case 4 => Row(IN, CTL_MOD)
    case 5 => Row(IN | HUP, CTL_MOD)
    case 6 => Row(IN, CTL_MOD)
    case 7 => Row(0, 255)
    case 8 => Row(IN, CTL_DEL)
    case 9 => Row(HUP, CTL_MOD)
    case 10 => Row(IN | HUP, CTL_DEL)
    case 11 => Row(0, 255)
    case 12 => Row(0, 255)
    case 13 => Row(0, 255)
    case 14 => Row(0, 255)
    case 15 => Row(0, 255)
    case 16 => Row(IN | OUT, CTL_MOD)
    case 17 => Row(IN | OUT | HUP, CTL_MOD)
    case 18 => Row(IN | OUT, CTL_MOD)
    case 19 => Row(0, 255)
    case 20 => Row(IN | OUT, CTL_MOD)
    case 21 => Row(IN | OUT | HUP, CTL_MOD)
    case 22 => Row(IN | OUT, CTL_MOD)
    case 23 => Row(0, 255)
    case 24 => Row(OUT, CTL_MOD)
    case 25 => Row(OUT | HUP, CTL_MOD)
    case 26 => Row(OUT, CTL_MOD)
    case 27 => Row(0, 255)
    case 28 => Row(0, 255)
    case 29 => Row(0, 255)
    case 30 => Row(0, 255)
    case 31 => Row(0, 255)
    case 32 => Row(IN, CTL_MOD)
    case 33 => Row(IN | HUP, CTL_MOD)
    case 34 => Row(IN, CTL_MOD)
    case 35 => Row(0, 255)
    case 36 => Row(IN, CTL_MOD)
    case 37 => Row(IN | HUP, CTL_MOD)
    case 38 => Row(IN, CTL_MOD)
    case 39 => Row(0, 255)
    case 40 => Row(IN | OUT, CTL_DEL)
    case 41 => Row(HUP, CTL_MOD)
    case 42 => Row(IN | OUT | HUP, CTL_DEL)
    case 43 => Row(0, 255)
    case 44 => Row(0, 255)
    case 45 => Row(0, 255)
    case 46 => Row(0, 255)
    case 47 => Row(0, 255)
    case 48 => Row(0, 255)
    case 49 => Row(0, 255)
    case 50 => Row(0, 255)
    case 51 => Row(0, 255)
    case 52 => Row(0, 255)
    case 53 => Row(0, 255)
    case 54 => Row(0, 255)
    case 55 => Row(0, 255)
    case 56 => Row(0, 255)
    case 57 => Row(0, 255)
    case 58 => Row(0, 255)
    case 59 => Row(0, 255)
    case 60 => Row(0, 255)
    case 61 => Row(0, 255)
    case 62 => Row(0, 255)
    case _ => Row(0, 255)
  }

  /** Rows 128 to 191 of the table: write enabled before. */
  function Rows2(i: bv6): Row {
    match i
    case 0 => Row(0, 0)
    case 1 => Row(OUT | HUP, CTL_MOD)
    case 2 => Row(OUT, CTL_MOD)
    case 3 => Row(0, 255)
    case 4 => Row(IN | OUT, CTL_MOD)
    case 5 => Row(IN | OUT | HUP, CTL_MOD)
    case 6 => Row(IN | OUT, CTL_MOD)
    case 7 => Row(0, 255)
    case 8 => Row(OUT, CTL_MOD)
    case 9 => Row(OUT | HUP, CTL_MOD)
    case 10 => Row(OUT, CTL_MOD)
    case 11 => Row(0, 255)
    case 12 => Row(0, 255)
    case 13 => Row(0, 255)
    case 14 => Row(0, 255)
    case 15 => Row(0, 255)
    case 16 => Row(OUT, CTL_MOD)
    case 17 => Row(OUT | HUP, CTL_MOD)
    case 18 => Row(OUT, CTL_MOD)
    case 19 => Row(0, 255)
    case 20 => Row(IN | OUT, CTL_MOD)
    case 21 => Row(IN | OUT | HUP, CTL_MOD)
    case 22 => Row(IN | OUT, CTL_MOD)
    case 23 => Row(0, 255)
    case 24 => Row(OUT, CTL_MOD)
    case 25 => Row(OUT | HUP, CTL_MOD)
    case 26 => Row(OUT, CTL_MOD)
    case 27 => Row(0, 255)
    case 28 => Row(0, 255)
    case 29 => Row(0, 255)
    case 30 => Row(0, 255)
    case 31 => Row(0, 255)
    case 32 => Row(OUT, CTL_DEL)
    case 33 => Row(HUP, CTL_MOD)
    case 34 => Row(OUT | HUP, CTL_DEL)
    case 35 => Row(0, 255)
    case 36 => Row(IN, CTL_MOD)
    case 37 => Row(IN | HUP, CTL_MOD)
    case 38 => Row(IN, CTL_MOD)
    case 39 => Row(0, 255)
    case 40 => Row(IN | OUT, CTL_DEL)
    case 41 => Row(HUP, CTL_MOD)
    case 42 => Row(IN | OUT | HUP, CTL_DEL)
    case 43 => Row(0, 255)
    case 44 => Row(0, 255)
    case 45 => Row(0, 255)
    case 46 => Row(0, 255)
    case 47 => Row(0, 255)
    case 48 => Row(0, 255)
    case 49 => Row(0, 255)
    case 50 => Row(0, 255)
    case 51 => Row(0, 255)
    case 52 => Row(0, 255)
    case 53 => Row(0, 255)
    case 54 => Row(0, 255)
    case 55 => Row(0, 255)
    case 56 => Row(0, 255)
    case 57 => Row(0, 255)
    case 58 => Row(0, 255)
    case 59 => Row(0, 255)
    case 60 => Row(0, 255)
    case 61 => Row(0, 255)
    case 62 => Row(0, 255)
    case _ => Row(0, 255)
  }

  /** Rows 192 to 255 of the table: read, write enabled before. */
  function Rows3(i: bv6): Row {
    match i
    case 0 => Row(0, 0)
    case 1 => Row(IN | OUT | HUP, CTL_MOD)
    case 2 => Row(IN | OUT, CTL_MOD)
    case 3 => Row(0, 255)
    case 4 => Row(IN | OUT, CTL_MOD)
    case 5 => Row(IN | OUT | HUP, CTL_MOD)
    case 6 => Row(IN | OUT, CTL_MOD)
    case 7 => Row(0, 255)
    case 8 => Row(OUT, CTL_MOD)
    case 9 => Row(OUT | HUP, CTL_MOD)
    case 10 => Row(OUT, CTL_MOD)
    case 11 => Row(0, 255)
    case 12 => Row(0, 255)
    case 13 => Row(0, 255)
    case 14 => Row(0, 255)
    case 15 => Row(0, 255)
    case 16 => Row(IN | OUT, CTL_MOD)
    case 17 => Row(IN | OUT | HUP, CTL_MOD)
    case 18 => Row(IN | OUT, CTL_MOD)
    case 19 => Row(0, 255)
    case 20 => Row(IN | OUT, CTL_MOD)
    case 21 => Row(IN | OUT | HUP, CTL_MOD)
    case 22 => Row(IN | OUT, CTL_MOD)
    case 23 => Row(0, 255)
    case 24 => Row(OUT, CTL_MOD)
    case 25 => Row(OUT | HUP, CTL_MOD)
    case 26 => Row(OUT, CTL_MOD)
    case 27 => Row(0, 255)
    case 28 => Row(0, 255)
    case 29 => Row(0, 255)
    case 30 => Row(0, 255)
    case 31 => Row(0, 255)
    case 32 => Row(IN, CTL_MOD)
    case 33 => Row(IN | HUP, CTL_MOD)
    case 34 => Row(IN, CTL_MOD)
    case 35 => Row(0, 255)
    case 36 => Row(IN, CTL_MOD)
    case 37 => Row(IN | HUP, CTL_MOD)
    case 38 => Row(IN, CTL_MOD)
    case 39 => Row(0, 255)
    case 40 => Row(IN | OUT, CTL_DEL)
    case 41 => Row(HUP, CTL_MOD)
    case 42 => Row(IN | OUT | HUP, CTL_DEL)
    case 43 => Row(0, 255)
    case 44 => Row(0, 255)
    case 45 => Row(0, 255)
    case 46 => Row(0, 255)
    case 47 => Row(0, 255)
    case 48 => Row(0, 255)
    case 49 => Row(0, 255)
    case 50 => Row(0, 255)
    case 51 => Row(0, 255)
    case 52 => Row(0, 255)
    case 53 => Row(0, 255)
    case 54 => Row(0, 255)
    case 55 => Row(0, 255)
    case 56 => Row(0, 255)
    case 57 => Row(0, 255)
    case 58 => Row(0, 255)
    case 59 => Row(0, 255)
    case 60 => Row(0, 255)
    case 61 => Row(0, 255)
    case 62 => Row(0, 255)
    case _ => Row(0, 255)
  }

  /** Rows 256 to 319 of the table: close enabled before. */
  function Rows4(i: bv6): Row {
    match i
    case 0 => Row(0, 0)
    case 1 => Row(HUP, CTL_MOD)
    case 2 => Row(HUP, CTL_DEL)
    case 3 => Row(0, 255)
    case 4 => Row(IN | HUP, CTL_MOD)
    case 5 => Row(IN | HUP, CTL_MOD)
    case 6 => Row(IN, CTL_MOD)
    case 7 => Row(0, 255)
    case 8 => Row(HUP, CTL_MOD)
    case 9 => Row(HUP, CTL_MOD)
    case 10 => Row(IN | HUP, CTL_DEL)
    case 11 => Row(0, 255)
    case 12 => Row(0, 255)
    case 13 => Row(0, 255)
    case 14 => Row(0, 255)
    case 15 => Row(0, 255)
    case 16 => Row(OUT | HUP, CTL_MOD)
    case 17 => Row(OUT | HUP, CTL_MOD)
    case 18 => Row(OUT, CTL_MOD)
    case 19 => Row(0, 255)
    case 20 => Row(IN | OUT | HUP, CTL_MOD)
    case 21 => Row(IN | OUT | HUP, CTL_MOD)
    case 22 => Row(IN | OUT, CTL_MOD)
    case 23 => Row(0, 255)
    case 24 => Row(OUT | HUP, CTL_MOD)
    case 25 => Row(OUT | HUP, CTL_MOD)
    case 26 => Row(OUT, CTL_MOD)
    case 27 => Row(0, 255)
    case 28 => Row(0, 255)
    case 29 => Row(0, 255)
    case 30 => Row(0, 255)
    case 31 => Row(0, 255)
    case 32 => Row(HUP, CTL_MOD)
    case 33 => Row(HUP, CTL_MOD)
    case 34 => Row(OUT | HUP, CTL_DEL)
    case 35 => Row(0, 255)
    case 36 => Row(IN | HUP, CTL_MOD)
    case 37 => Row(IN | HUP, CTL_MOD)
    case 38 => Row(IN, CTL_MOD)
    case 39 => Row(0, 255)
    case 40 => Row(HUP, CTL_MOD)
    case 41 => Row(HUP, CTL_MOD)
    case 42 => Row(IN | OUT | HUP, CTL_DEL)
    case 43 => Row(0, 255)
    case 44 => Row(0, 255)
    case 45 => Row(0, 255)
    case 46 => Row(0, 255)
    case 47 => Row(0, 255)
    case 48 => Row(0, 255)
    case 49 => Row(0, 255)
    case 50 => Row(0, 255)
    case 51 => Row(0, 255)
    case 52 => Row(0, 255)
    case 53 => Row(0, 255)
    case 54 => Row(0, 255)
    case 55 => Row(0, 255)
    case 56 => Row(0, 255)
    case 57 => Row(0, 255)
    case 58 => Row(0, 255)
    case 59 => Row(0, 255)
    case 60 => Row(0, 255)
    case 61 => Row(0, 255)
    case 62 => Row(0, 255)
    case _ => Row(0, 255)
  }

  /** Rows 320 to 383 of the table: read, close enabled before. */
  function Rows5(i: bv6): Row {
    match i
    case 0 => Row(0, 0)
    case 1 => Row(IN | HUP, CTL_MOD)
    case 2 => Row(IN, CTL_MOD)
    case 3 => Row(0, 255)
    case 4 => Row(IN | HUP, CTL_MOD)
    case 5 => Row(IN | HUP, CTL_MOD)
    case 6 => Row(IN, CTL_MOD)
    case 7 => Row(0, 255)
    case 8 => Row(HUP, CTL_MOD)
    case 9 => Row(HUP, CTL_MOD)
    case 10 => Row(IN | HUP, CTL_DEL)
    case 11 => Row(0, 255)
    case 12 => Row(0, 255)
    case 13 => Row(0, 255)
    case 14 => Row(0, 255)
    case 15 => Row(0, 255)
    case 16 => Row(IN | OUT | HUP, CTL_MOD)
    case 17 => Row(IN | OUT | HUP, CTL_MOD)
    case 18 => Row(IN | OUT, CTL_MOD)
    case 19 => Row(0, 255)
    case 20 => Row(IN | OUT | HUP, CTL_MOD)
    case 21 => Row(IN | OUT | HUP, CTL_MOD)
    case 22 => Row(IN | OUT, CTL_MOD)
    case 23 => Row(0, 255)
    case 24 => Row(OUT | HUP, CTL_MOD)
    case 25 => Row(OUT | HUP, CTL_MOD)
    case 26 => Row(OUT, CTL_MOD)
    case 27 => Row(0, 255)
    case 28 => Row(0, 255)
    case 29 => Row(0, 255)
    case 30 => Row(0, 255)
    case 31 => Row(0, 255)
    case 32 => Row(IN | HUP, CTL_MOD)
    case 33 => Row(IN | HUP, CTL_MOD)
    case 34 => Row(IN, CTL_MOD)
    case 35 => Row(0, 255)
    case 36 => Row(IN | HUP, CTL_MOD)
    case 37 => Row(IN | HUP, CTL_MOD)
    case 38 => Row(IN, CTL_MOD)
    case 39 => Row(0, 255)
    case 40 => Row(HUP, CTL_MOD)
    case 41 => Row(HUP, CTL_MOD)
    case 42 => Row(IN | OUT | HUP, CTL_DEL)
    case 43 => Row(0, 255)
    case 44 => Row(0, 255)
    case 45 => Row(0, 255)
    case 46 => Row(0, 255)
    case 47 => Row(0, 255)
    case 48 => Row(0, 255)
    case 49 => Row(0, 255)
    case 50 => Row(0, 255)
    case 51 => Row(0, 255)
    case 52 => Row(0, 255)
    case 53 => Row(0, 255)
    case 54 => Row(0, 255)
    case 55 => Row(0, 255)
    case 56 => Row(0, 255)
    case 57 => Row(0, 255)
    case 58 => Row(0, 255)
    case 59 => Row(0, 255)
    case 60 => Row(0, 255)
    case 61 => Row(0, 255)
    case 62 => Row(0, 255)
    case _ => Row(0, 255)
  }

  /** Rows 384 to 447 of the table: write, close enabled before. */
  function Rows6(i: bv6): Row {
    match i
    case 0 => Row(0, 0)
    case 1 => Row(OUT | HUP, CTL_MOD)
    case 2 => Row(OUT, CTL_MOD)
    case 3 => Row(0, 255)
    case 4 => Row(IN | OUT | HUP, CTL_MOD)
    case 5 => Row(IN | OUT | HUP, CTL_MOD)
    case 6 => Row(IN | OUT, CTL_MOD)
    case 7 => Row(0, 255)
    case 8 => Row(OUT | HUP, CTL_MOD)
    case 9 => Row(OUT | HUP, CTL_MOD)
    case 10 => Row(OUT, CTL_MOD)
    case 11 => Row(0, 255)
    case 12 => Row(0, 255)
    case 13 => Row(0, 255)
    case 14 => Row(0, 255)
    case 15 => Row(0, 255)
    case 16 => Row(OUT | HUP, CTL_MOD)
    case 17 => Row(OUT | HUP, CTL_MOD)
    case 18 => Row(OUT, CTL_MOD)
    case 19 => Row(0, 255)
    case 20 => Row(IN | OUT | HUP, CTL_MOD)
    case 21 => Row(IN | OUT | HUP, CTL_MOD)
    case 22 => Row(IN | OUT, CTL_MOD)
    case 23 => Row(0, 255)
    case 24 => Row(OUT | HUP, CTL_MOD)
    case 25 => Row(OUT | HUP, CTL_MOD)
    case 26 => Row(OUT, CTL_MOD)
    case 27 => Row(0, 255)
    case 28 => Row(0, 255)
    case 29 => Row(0, 255)
    case 30 => Row(0, 255)
    case 31 => Row(0, 255)
    case 32 => Row(HUP, CTL_MOD)
    case 33 => Row(HUP, CTL_MOD)
    case 34 => Row(OUT | HUP, CTL_DEL)
    case 35 => Row(0, 255)
    case 36 => Row(IN | HUP, CTL_MOD)
    case 37 => Row(IN | HUP, CTL_MOD)
    case 38 => Row(IN, CTL_MOD)
    case 39 => Row(0, 255)
    case 40 => Row(HUP, CTL_MOD)
    case 41 => Row(HUP, CTL_MOD)
    case 42 => Row(IN | OUT | HUP, CTL_DEL)
    case 43 => Row(0, 255)
    case 44 => Row(0, 255)
    case 45 => Row(0, 255)
    case 46 => Row(0, 255)
    case 47 => Row(0, 255)
    case 48 => Row(0, 255)
    case 49 => Row(0, 255)
    case 50 => Row(0, 255)
    case 51 => Row(0, 255)
    case 52 => Row(0, 255)
    case 53 => Row(0, 255)
    case 54 => Row(0, 255)
    case 55 => Row(0, 255)
    case 56 => Row(0, 255)
    case 57 => Row(0, 255)
    case 58 => Row(0, 255)
    case 59 => Row(0, 255)
    case 60 => Row(0, 255)
    case 61 => Row(0, 255)
    case 62 => Row(0, 255)
    case _ => Row(0, 255)
  }

  /** Rows 448 to 511 of the table: read, write, close enabled before. */
  function Rows7(i: bv6): Row {
    match i
    case 0 => Row(0, 0)
    case 1 => Row(IN | OUT | HUP, CTL_MOD)
    case 2 => Row(IN | OUT, CTL_MOD)
    case 3 => Row(0, 255)
    case 4 => Row(IN | OUT | HUP, CTL_MOD)
    case 5 => Row(IN | OUT | HUP, CTL_MOD)
    case 6 => Row(IN | OUT, CTL_MOD)
    case 7 => Row(0, 255)
    case 8 => Row(OUT | HUP, CTL_MOD)
    case 9 => Row(OUT | HUP, CTL_MOD)
    case 10 => Row(OUT, CTL_MOD)
    case 11 => Row(0, 255)
    case 12 => Row(0, 255)
    case 13 => Row(0, 255)
    case 14 => Row(0, 255)
    case 15 => Row(0, 255)
    case 16 => Row(IN | OUT | HUP, CTL_MOD)
    case 17 => Row(IN | OUT | HUP, CTL_MOD)
    case 18 => Row(IN | OUT, CTL_MOD)
    case 19 => Row(0, 255)
    case 20 => Row(IN | OUT | HUP, CTL_MOD)
    case 21 => Row(IN | OUT | HUP, CTL_MOD)
    case 22 => Row(IN | OUT, CTL_MOD)
    case 23 => Row(0, 255)
    case 24 => Row(OUT | HUP, CTL_MOD)
    case 25 => Row(OUT | HUP, CTL_MOD)
    case 26 => Row(OUT, CTL_MOD)
    case 27 => Row(0, 255)
    case 28 => Row(0, 255)
    case 29 => Row(0, 255)
    case 30 => Row(0, 255)
    case 31 => Row(0, 255)
    case 32 => Row(IN | HUP, CTL_MOD)
    case 33 => Row(IN | HUP, CTL_MOD)
    case 34 => Row(IN, CTL_MOD)
    case 35 => Row(0, 255)
    case 36 => Row(IN | HUP, CTL_MOD)
    case 37 => Row(IN | HUP, CTL_MOD)
    case 38 => Row(IN, CTL_MOD)
    case 39 => Row(0, 255)
    case 40 => Row(HUP, CTL_MOD)
    case 41 => Row(HUP, CTL_MOD)
    case 42 => Row(IN | OUT | HUP, CTL_DEL)
    case 43 => Row(0, 255)
    case 44 => Row(0, 255)
    case 45 => Row(0, 255)
    case 46 => Row(0, 255)
    case 47 => Row(0, 255)
    case 48 => Row(0, 255)
    case 49 => Row(0, 255)
    case 50 => Row(0, 255)
    case 51 => Row(0, 255)
    case 52 => Row(0, 255)
    case 53 => Row(0, 255)
    case 54 => Row(0, 255)
    case 55 => Row(0, 255)
    case 56 => Row(0, 255)
    case 57 => Row(0, 255)
    case 58 => Row(0, 255)
    case 59 => Row(0, 255)
    case 60 => Row(0, 255)
    case 61 => Row(0, 255)
    case 62 => Row(0, 255)
    case _ => Row(0, 255)
  }
  /** epoll_op_table at EPOLL_OP_TABLE_INDEX(ch) */
  function OpTable(ch: Change): Row {
    RowAt(OldIndex(ch), ChangeIndex(ch))
  }

  /** The row for these kinds enabled before and these changes */
  function RowAt(o: bv3, i: bv6): Row {
    match o
    case 0 => Rows0(i)
    case 1 => Rows1(i)
    case 2 => Rows2(i)
    case 3 => Rows3(i)
    case 4 => Rows4(i)
    case 5 => Rows5(i)
    case 6 => Rows6(i)
    case _ => Rows7(i)
  }

  /** No kind is both added and deleted. */
  predicate Sane(ch: Change) {
    ch.readChange & 3 != 3 && ch.writeChange & 3 != 3 && ch.closeChange & 3 != 3
  }

  /** Whether any kind is added or deleted. */
  predicate Effective(ch: Change) {
    (ch.readChange | ch.writeChange | ch.closeChange) & 3 != 0
  }

  /** A kind is enabled after a change when it is added, or was enabled and is not deleted. */
  function After(was: mask, kind: mask, change: mask): bool {
    change & CHANGE_ADD != 0 || (was & kind != 0 && change & CHANGE_DEL == 0)
  }

  function Pick(b: bool, m: mask): mask {
    if b then m else 0
  }

  /** The epoll events that should be watched once a change is applied. */
  function Target(ch: Change): mask {
    Pick(After(ch.oldEvents, EV_READ, ch.readChange), IN)
    | Pick(After(ch.oldEvents, EV_WRITE, ch.writeChange), OUT)
    | Pick(After(ch.oldEvents, EV_CLOSED, ch.closeChange), HUP)
  }

  /** A change that adds and deletes nothing is no operation at all. */
  lemma TableIdle(ch: Change)
    requires !Effective(ch)
    ensures OpTable(ch) == Row(0, 0)
  {
  }

  const KINDS: mask := EV_READ | EV_WRITE | EV_CLOSED

  /** The epoll events that should be watched, in terms of the two parts of the index */
  function Kept(o: bv3, i: bv6): mask {
    Pick(i & 0x04 != 0 || (o & 1 != 0 && i & 0x08 == 0), IN)
    | Pick(i & 0x10 != 0 || (o & 2 != 0 && i & 0x20 == 0), OUT)
    | Pick(i & 0x01 != 0 || (o & 4 != 0 && i & 0x02 == 0), HUP)
  }

  /** No kind is both added and deleted, and some kind is added or deleted. */
  predicate Proper(i: bv6) {
    i & 0x03 != 0x03 && i & 0x0c != 0x0c && i & 0x30 != 0x30 && i != 0
  }

  lemma Rows0Keep(i: bv6)
    requires Proper(i) && Kept(0, i) != 0
    ensures Rows0(i) == Row(Kept(0, i), CTL_ADD)
  {
  }

  lemma Rows1Keep(i: bv6)
    requires Proper(i) && Kept(1, i) != 0
    ensures Rows1(i) == Row(Kept(1, i), CTL_MOD)
  {
  }

  lemma Rows2Keep(i: bv6)
    requires Proper(i) && Kept(2, i) != 0
    ensures Rows2(i) == Row(Kept(2, i), CTL_MOD)
  {
  }

  lemma Rows3Keep(i: bv6)
    requires Proper(i) && Kept(3, i) != 0
    ensures Rows3(i) == Row(Kept(3, i), CTL_MOD)
  {
  }

  lemma Rows4Keep(i: bv6)
    requires Proper(i) && Kept(4, i) != 0
    ensures Rows4(i) == Row(Kept(4, i), CTL_MOD)
  {
  }

  lemma Rows5Keep(i: bv6)
    requires Proper(i) && Kept(5, i) != 0
    ensures Rows5(i) == Row(Kept(5, i), CTL_MOD)
  {
  }

  lemma Rows6Keep(i: bv6)
    requires Proper(i) && Kept(6, i) != 0
    ensures Rows6(i) == Row(Kept(6, i), CTL_MOD)
  {
  }

  lemma Rows7Keep(i: bv6)
    requires Proper(i) && Kept(7, i) != 0
    ensures Rows7(i) == Row(Kept(7, i), CTL_MOD)
  {
  }

  lemma IndexMeaning(ch: Change)
    requires Sane(ch) && Effective(ch)
    ensures Proper(ChangeIndex(ch)) && Kept(OldIndex(ch), ChangeIndex(ch)) == Target(ch)
    ensures OldIndex(ch) == 0 <==> ch.oldEvents & KINDS == 0
  {
  }

  /** When events stay enabled, the operation sets exactly these: a new watch if none was enabled, else a
      changed one. */
  lemma TableSets(ch: Change)
    requires Sane(ch) && Effective(ch) && Target(ch) != 0
    ensures OpTable(ch) == Row(Target(ch), if ch.oldEvents & KINDS == 0 then CTL_ADD else CTL_MOD)
  {
    hide RowAt, Kept, Target, Sane, Effective, Proper, ChangeIndex, OldIndex;
    IndexMeaning(ch);
    RowAtKeeps(OldIndex(ch), ChangeIndex(ch));
  }

  lemma RowAtKeeps(o: bv3, i: bv6)
    requires Proper(i) && Kept(o, i) != 0
    ensures RowAt(o, i) == Row(Kept(o, i), if o == 0 then CTL_ADD else CTL_MOD)
  {
    hide Rows0, Rows1, Rows2, Rows3, Rows4, Rows5, Rows6, Rows7, Kept, Proper;
    match o
    case 0 => Rows0Keep(i);
    case 1 => Rows1Keep(i);
    case 2 => Rows2Keep(i);
    case 3 => Rows3Keep(i);
    case 4 => Rows4Keep(i);
    case 5 => Rows5Keep(i);
    case 6 => Rows6Keep(i);
    case _ => Rows7Keep(i);
  }

  /** When no event stays enabled, the operation deletes the fd. */
  lemma TableDrops(ch: Change)
    requires Sane(ch) && Effective(ch) && Target(ch) == 0
    ensures OpTable(ch).op == CTL_DEL && OpTable(ch).events != 0
  {
  }
}
