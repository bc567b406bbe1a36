/** Blackhole SPI flash access through a dump buffer, and the lock around writes. */
module BlackholeSpi {
  import opened Bytes

  /** A message is answered with success or an error code, or sending it throws. */
  datatype Answer = Success | ErrorCode | Threw

  /** The answers to the messages of the n-th chunk, whether filling the buffer for it throws, and the lock answers. */
  datatype Script = Script(
    read: nat -> Answer, fillThrows: nat -> bool, write: nat -> Answer, unlock: Answer, relock: Answer)

  class SpiFirmware {
    const script: Script
    const bufferSize: nat
    var flash: seq<Byte>
    var buffer: seq<Byte>
    var locked: bool
    var lockAttempts: nat

    ghost predicate Valid()
      reads this
    {
      bufferSize > 0 && |buffer| == bufferSize
    }

    /** READ_EEPROM and a read of the buffer; beyond the flash the firmware may deliver anything. */
    method ReadEeprom(n: nat, addr: nat, size: nat) returns (answer: Answer, buf: seq<Byte>)
      requires Valid() && size <= bufferSize
      modifies this`buffer
      ensures Valid() && |buf| == size && answer == script.read(n)
      ensures answer.Success? && addr + size <= |flash| ==> buf == flash[addr..addr + size]
    {
      var anything: seq<Byte> := *;
      if addr + size <= |flash| {
        buffer := Splice(buffer, 0, flash[addr..addr + size]);
      } else if |anything| == bufferSize {
        buffer := anything;
      }
      buf := buffer[..size];
      answer := script.read(n);
    }

    method FillBuffer(n: nat, data: seq<Byte>) returns (threw: bool)
      requires Valid() && |data| <= bufferSize
      modifies this`buffer
      ensures Valid() && threw == script.fillThrows(n) && buffer[..|data|] == data
    {
      buffer := Splice(buffer, 0, data);
      threw := script.fillThrows(n);
    }

    /**
     WRITE_EEPROM; the flash keeps its contents while locked, a failed write may or may not
     have happened, and one beyond the flash may leave anything behind.
     */
    method WriteEeprom(n: nat, addr: nat, size: nat) returns (answer: Answer, ghost stored: bool)
      requires Valid() && size <= bufferSize
      modifies this`flash
      ensures Valid() && |flash| == |old(flash)| && (locked ==> flash == old(flash) && !stored)
      ensures answer == script.write(n)
      ensures addr + size <= |flash| ==>
              flash == if stored then Splice(old(flash), addr, buffer[..size]) else old(flash)
      ensures answer.Success? && !locked ==> stored
    {
      answer := script.write(n);
      var reached: bool, anything: seq<Byte> := *, *;
      stored := !locked && (answer.Success? || reached);
      if !locked && (answer.Success? || reached) {
        if addr + size <= |flash| {
          flash := Splice(flash, addr, buffer[..size]);
        } else if |anything| == |flash| {
          flash := anything;
        }
      }
    }

    method SetLock(lock: bool) returns (answer: Answer)
      requires Valid()
      modifies this`locked, this`lockAttempts
      ensures Valid() && (answer.Success? ==> locked == lock)
      ensures answer == if lock then script.relock else script.unlock
      ensures lockAttempts == old(lockAttempts) + if lock then 1 else 0
    {
      answer := if lock then script.relock else script.unlock;
      var state: bool := *;
      locked := if answer.Success? then lock else state;
      if lock {
        lockAttempts := lockAttempts + 1;
      }
    }
  }

  datatype ReadResult = ReadOk | ReadNoMessenger | ReadFailed

  /** The first n bytes of the buffer come from flash, the others are as before. */
  ghost predicate Fetched(flash: seq<Byte>, addr: nat, data: seq<Byte>, before: seq<Byte>, n: nat) {
    n <= |data| == |before| && addr + n <= |flash| && data == Splice(before, 0, flash[addr..addr + n])
  }

  lemma FetchMore(flash: seq<Byte>, addr: nat, data: seq<Byte>, before: seq<Byte>, n: nat, count: nat)
    requires Fetched(flash, addr, data, before, n) && n + count <= |data| && addr + n + count <= |flash|
    ensures Fetched(flash, addr, Splice(data, n, flash[addr + n..addr + n + count]), before, n + count)
  {
    SpliceJoins(before, 0, flash[addr..addr + n], flash[addr + n..addr + n + count]);
    SliceJoins(flash, addr, addr + n, addr + n + count);
  }

  /** A request of this size has an n-th chunk. */
  predicate HasChunk(size: nat, bufferSize: nat, n: nat) {
    n * bufferSize < size
  }

  /** How many bytes the first n chunks hold. */
  function Progress(size: nat, bufferSize: nat, n: nat): nat {
    Min(n * bufferSize, size)
  }

  lemma NextChunk(size: nat, bufferSize: nat, n: nat)
    requires bufferSize > 0 && Progress(size, bufferSize, n) < size
    ensures HasChunk(size, bufferSize, n)
    ensures Progress(size, bufferSize, n + 1) ==
            Progress(size, bufferSize, n) + Min(size - Progress(size, bufferSize, n), bufferSize)
  {
    assert (n + 1) * bufferSize == n * bufferSize + bufferSize;
  }

  /** Chunks behind the last one do not exist. */
  lemma NoLaterChunk(size: nat, bufferSize: nat, n: nat, m: nat)
    requires Progress(size, bufferSize, n) == size && HasChunk(size, bufferSize, m)
    ensures m < n
  {
    assert m >= n ==> m * bufferSize == n * bufferSize + (m - n) * bufferSize;
  }

  /** In range the buffer holds the flash slice; a failed read has filled a prefix of it. */
  method Read(fw: SpiFirmware, messenger: bool, addr: nat, data: array<Byte>) returns (r: ReadResult)
    requires fw.Valid()
    modifies fw`buffer, data
    ensures fw.Valid()
    ensures r.ReadNoMessenger? <==> data.Length > 0 && !messenger
    ensures r.ReadNoMessenger? ==> data[..] == old(data[..])
    ensures data.Length > 0 && messenger ==>
              (r.ReadOk? <==> forall n :: HasChunk(data.Length, fw.bufferSize, n) ==> fw.script.read(n).Success?)
    ensures data.Length == 0 ==> r.ReadOk?
    ensures r.ReadOk? && addr + data.Length <= |fw.flash| ==> data[..] == fw.flash[addr..addr + data.Length]
    ensures addr + data.Length <= |fw.flash| ==> exists n :: Fetched(fw.flash, addr, data[..], old(data[..]), n)
  {
    ghost var before, inRange := data[..], addr + data.Length <= |fw.flash|;
    assert Splice(before, 0, []) == before;
    assert inRange ==> Fetched(fw.flash, addr, data[..], before, 0);
    if data.Length == 0 {
      return ReadOk;
    }
    if !messenger {
      return ReadNoMessenger;
    }
    var bytesRead, n := 0, 0;
    while bytesRead < data.Length
      invariant fw.Valid() && bytesRead == Progress(data.Length, fw.bufferSize, n)
      invariant forall m :: 0 <= m < n ==> fw.script.read(m).Success?
      invariant inRange ==> Fetched(fw.flash, addr, data[..], before, bytesRead)
    {
      var chunkSize := Min(data.Length - bytesRead, fw.bufferSize);
      NextChunk(data.Length, fw.bufferSize, n);
      var answer, buf := fw.ReadEeprom(n, addr + bytesRead, chunkSize);
      if !answer.Success? {
        assert inRange ==> Fetched(fw.flash, addr, data[..], before, bytesRead);
        return ReadFailed;
      }
      if inRange {
        FetchMore(fw.flash, addr, data[..], before, bytesRead, chunkSize);
      }
      CopyInto(data, bytesRead, buf);
      bytesRead, n := bytesRead + chunkSize, n + 1;
    }
    forall m | HasChunk(data.Length, fw.bufferSize, m)
      ensures fw.script.read(m).Success?
    {
      NoLaterChunk(data.Length, fw.bufferSize, n, m);
    }
    assert inRange ==> Splice(before, 0, fw.flash[addr..addr + data.Length]) == fw.flash[addr..addr + data.Length];
    r := ReadOk;
  }

  datatype WriteResult = WriteOk | WriteNoMessenger | UnlockFailed | WriteRefused | WriteThrew | LockFailed

  /** The first n bytes of the data have reached the flash; a dry run leaves it alone. */
  ghost predicate Current(before: seq<Byte>, flash: seq<Byte>, addr: nat, data: seq<Byte>, skip: bool, n: nat) {
    && n <= |data| && addr + |data| <= |before|
    && flash == if skip then before else Splice(before, addr, data[..n])
  }

  lemma CurrentGrows(before: seq<Byte>, flash: seq<Byte>, addr: nat, data: seq<Byte>, from: nat, count: nat)
    requires from + count <= |data| && addr + |data| <= |flash| == |before|
             && Current(before, flash, addr, data, false, from)
    ensures Current(before, Splice(flash, addr + from, data[from..from + count]), addr, data, false, from + count)
  {
    SpliceJoins(before, addr, data[..from], data[from..from + count]);
    SliceJoins(data, 0, from, from + count);
  }

  /** How the turn of the n-th chunk ends: filling the buffer only throws, and a dry run sends no message. */
  function TurnAnswer(s: Script, skip: bool, n: nat): Answer {
    if s.fillThrows(n) then Threw else if skip then Success else s.write(n)
  }

  /** The first turn that does not succeed ends with this answer. */
  ghost predicate StopsWith(s: Script, skip: bool, size: nat, bufferSize: nat, answer: Answer) {
    exists n: nat :: HasChunk(size, bufferSize, n) && TurnAnswer(s, skip, n) == answer
                && forall m :: 0 <= m < n ==> TurnAnswer(s, skip, m).Success?
  }

  ghost predicate AllSucceed(s: Script, skip: bool, size: nat, bufferSize: nat) {
    forall n :: HasChunk(size, bufferSize, n) ==> TurnAnswer(s, skip, n).Success?
  }

  /** No turn succeeds and fails: the answer that stops the loop is the only one. */
  lemma OneStop(s: Script, skip: bool, size: nat, bufferSize: nat, a: Answer, b: Answer)
    requires StopsWith(s, skip, size, bufferSize, a) && !a.Success?
    ensures !AllSucceed(s, skip, size, bufferSize)
    ensures StopsWith(s, skip, size, bufferSize, b) && !b.Success? ==> a == b
  {
    var n: nat :| HasChunk(size, bufferSize, n) && TurnAnswer(s, skip, n) == a
                  && forall m :: 0 <= m < n ==> TurnAnswer(s, skip, m).Success?;
    if StopsWith(s, skip, size, bufferSize, b) && !b.Success? {
      var k: nat :| HasChunk(size, bufferSize, k) && TurnAnswer(s, skip, k) == b
                    && forall m :: 0 <= m < k ==> TurnAnswer(s, skip, m).Success?;
      assert n == k;
    }
  }

  lemma StoreOutcome(before: seq<Byte>, flash: seq<Byte>, flash': seq<Byte>, addr: nat, data: seq<Byte>, from: nat,
                     done: nat, piece: seq<Byte>, stored: bool)
    requires addr + |data| <= |flash| == |before| && from + |piece| <= |data| && piece == data[from..from + |piece|]
    requires Current(before, flash, addr, data, false, done) && (stored ==> done == from)
    requires flash' == if stored then Splice(flash, addr + from, piece) else flash
    ensures Current(before, flash', addr, data, false, if stored then from + |piece| else done)
  {
    if stored {
      CurrentGrows(before, flash, addr, data, from, |piece|);
    }
  }

  /** The message that stores a filled buffer. */
  method StoreChunk(fw: SpiFirmware, ghost before: seq<Byte>, addr: nat, data: seq<Byte>, turn: nat, from: nat,
                    count: nat)
    returns (answer: Answer, ghost n: nat)
    requires fw.Valid() && |fw.flash| == |before| && from + count <= |data| && count <= fw.bufferSize
    requires fw.buffer[..count] == data[from..from + count]
    requires addr + |data| <= |before| ==>
             Current(before, fw.flash, addr, data, false, if fw.locked then 0 else from)
    modifies fw`flash
    ensures fw.Valid() && |fw.flash| == |before| && (fw.locked ==> fw.flash == old(fw.flash))
    ensures addr + |data| <= |before| ==> Current(before, fw.flash, addr, data, false, n)
    ensures answer == fw.script.write(turn)
    ensures answer.Success? ==> n == if fw.locked then 0 else from + count
  {
    ghost var flash := fw.flash;
    ghost var stored;
    answer, stored := fw.WriteEeprom(turn, addr + from, count);
    n := if stored then from + count else if fw.locked then 0 else from;
    if addr + |data| <= |before| {
      StoreOutcome(before, flash, fw.flash, addr, data, from, if fw.locked then 0 else from,
                   fw.buffer[..count], stored);
    }
  }

  method WriteChunk(fw: SpiFirmware, ghost before: seq<Byte>, addr: nat, data: seq<Byte>, turn: nat, from: nat,
                    count: nat, skip: bool)
    returns (answer: Answer, ghost n: nat)
    requires fw.Valid() && |fw.flash| == |before| && from + count <= |data| && count <= fw.bufferSize
    requires addr + |data| <= |before| ==>
             Current(before, fw.flash, addr, data, skip, if fw.locked && !skip then 0 else from)
    modifies fw`flash, fw`buffer
    ensures fw.Valid() && |fw.flash| == |before| && (skip || fw.locked ==> fw.flash == old(fw.flash))
    ensures addr + |data| <= |before| ==> Current(before, fw.flash, addr, data, skip, n)
    ensures answer == TurnAnswer(fw.script, skip, turn)
    ensures answer.Success? ==> n == if fw.locked && !skip then 0 else from + count
  {
    var fillThrew := fw.FillBuffer(turn, data[from..from + count]);
    n := if fw.locked && !skip then 0 else from;
    if fillThrew {
      return Threw, n;
    }
    if skip {
      return Success, from + count;
    }
    answer, n := StoreChunk(fw, before, addr, data, turn, from, count);
  }

  method WriteChunks(fw: SpiFirmware, addr: nat, data: seq<Byte>, skip: bool) returns (answer: Answer, ghost n: nat)
    requires fw.Valid()
    modifies fw`flash, fw`buffer
    ensures fw.Valid() && |fw.flash| == |old(fw.flash)|
    ensures skip || fw.locked ==> fw.flash == old(fw.flash)
    ensures addr + |data| <= |fw.flash| ==> Current(old(fw.flash), fw.flash, addr, data, skip, n)
    ensures answer.Success? && (skip || !fw.locked) ==> n == |data|
    ensures if answer.Success? then AllSucceed(fw.script, skip, |data|, fw.bufferSize)
            else StopsWith(fw.script, skip, |data|, fw.bufferSize, answer)
  {
    ghost var before, inRange := fw.flash, addr + |data| <= |fw.flash|;
    assert inRange ==> Splice(before, addr, data[..0]) == before;
    var bytesWritten, turn := 0, 0;
    n := 0;
    while bytesWritten < |data|
      invariant fw.Valid() && |fw.flash| == |before| && bytesWritten == Progress(|data|, fw.bufferSize, turn)
      invariant forall m :: 0 <= m < turn ==> TurnAnswer(fw.script, skip, m).Success?
      invariant skip || fw.locked ==> fw.flash == before
      invariant inRange ==> Current(before, fw.flash, addr, data, skip, n)
      invariant n == if fw.locked && !skip then 0 else bytesWritten
    {
      var chunkSize := Min(|data| - bytesWritten, fw.bufferSize);
      NextChunk(|data|, fw.bufferSize, turn);
      answer, n := WriteChunk(fw, before, addr, data, turn, bytesWritten, chunkSize, skip);
      if !answer.Success? {
        return;
      }
      bytesWritten, turn := bytesWritten + chunkSize, turn + 1;
    }
    forall m | HasChunk(|data|, fw.bufferSize, m)
      ensures TurnAnswer(fw.script, skip, m).Success?
    {
      NoLaterChunk(|data|, fw.bufferSize, turn, m);
    }
    answer := Success;
  }

  /**
   In range and with an unlocked flash, or firmware that unlocks it, a write changes exactly
   its slice, or on failure a prefix of it; a flash that stays locked never changes.  It
   locks again after success and after an error code, but not when sending a message throws.
   */
  method Write(fw: SpiFirmware, messenger: bool, lockingFirmware: bool, addr: nat, data: seq<Byte>, skip: bool)
    returns (r: WriteResult)
    requires fw.Valid()
    modifies fw
    ensures fw.Valid() && |fw.flash| == |old(fw.flash)|
    ensures data == [] ==> r.WriteOk?
    ensures r.WriteNoMessenger? <==> data != [] && !messenger
    ensures var locks := lockingFirmware && !skip;
            && (r.UnlockFailed? <==> data != [] && messenger && locks && !fw.script.unlock.Success?)
            && (data != [] && messenger && (locks ==> fw.script.unlock.Success?) ==>
                && (r.WriteThrew? <==> StopsWith(fw.script, skip, |data|, fw.bufferSize, Threw))
                && (r.WriteRefused? <==> StopsWith(fw.script, skip, |data|, fw.bufferSize, ErrorCode))
                && (r.WriteOk? || r.LockFailed? <==> AllSucceed(fw.script, skip, |data|, fw.bufferSize))
                && (r.LockFailed? ==> locks && !fw.script.relock.Success?)
                && (r.WriteOk? && locks ==> fw.script.relock.Success?))
    ensures skip || r.WriteNoMessenger? || r.UnlockFailed? || (old(fw.locked) && !lockingFirmware) ==>
            fw.flash == old(fw.flash)
    ensures && (r.WriteOk? || r.LockFailed?) && !skip && addr + |data| <= |fw.flash|
            && (lockingFirmware || !old(fw.locked)) ==>
              fw.flash == Splice(old(fw.flash), addr, data)
    ensures addr + |data| <= |fw.flash| ==> exists n :: Current(old(fw.flash), fw.flash, addr, data, skip, n)
    ensures var relocks := lockingFirmware && !skip && data != [] && (r.WriteOk? || r.LockFailed? || r.WriteRefused?);
            fw.lockAttempts == old(fw.lockAttempts) + if relocks then 1 else 0
    ensures r.WriteOk? && lockingFirmware && !skip && data != [] ==> fw.locked
  {
    ghost var before, inRange := fw.flash, addr + |data| <= |fw.flash|;
    assert inRange ==> Splice(before, addr, data[..0]) == before;
    assert inRange ==> Current(before, fw.flash, addr, data, skip, 0);
    assert data[..|data|] == data;
    if data == [] {
      return WriteOk;
    }
    if !messenger {
      return WriteNoMessenger;
    }
    var needLock := lockingFirmware && !skip;
    if needLock {
      var unlocked := fw.SetLock(false);
      if !unlocked.Success? {
        assert inRange ==> Current(before, fw.flash, addr, data, skip, 0);
        return UnlockFailed;
      }
    }
    ghost var n;
    var answer;
    answer, n := WriteChunks(fw, addr, data, skip);
    match answer {
      case Threw =>
        OneStop(fw.script, skip, |data|, fw.bufferSize, Threw, ErrorCode);
        return WriteThrew;
      case ErrorCode =>
        OneStop(fw.script, skip, |data|, fw.bufferSize, ErrorCode, Threw);
        if needLock {
          var _ := fw.SetLock(true);
        }
        assert inRange ==> Current(before, fw.flash, addr, data, skip, n);
        return WriteRefused;
      case Success =>
    }
    if needLock {
      var relocked := fw.SetLock(true);
      assert inRange ==> Current(before, fw.flash, addr, data, skip, n);
      if !relocked.Success? {
        return LockFailed;
      }
    }
    r := WriteOk;
  }
}
