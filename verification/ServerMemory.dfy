/**
 The memory store as the server runs it: one object whose maps, key set and
 totals change together. Every method equals one step of MemoryModel.Perform,
 so its runs keep MemoryModel.Valid (RunKeepsValid) and obey MemoryHistory.
 */
module ServerMemory {
  import opened Core
  import opened Codec
  import opened MemoryModel

  class MemoryStore {
    var regions: map<nat, Region>
    var rkeyToLkey: map<u32, nat>
    var usedRkeys: set<u32>
    var nextLkey: nat
    var totalRegisteredBytes: int
    const maxRegions: nat
    const maxTotalBytes: nat

    function View(): Store
      reads this
    {
      Store(regions, rkeyToLkey, usedRkeys, nextLkey, totalRegisteredBytes, maxRegions, maxTotalBytes)
    }

    constructor (maxRegions: nat, maxTotalBytes: nat)
      ensures View() == NewStore(maxRegions, maxTotalBytes)
      ensures MemoryModel.Valid(View())
    {
      this.regions, this.rkeyToLkey, this.usedRkeys := map[], map[], {};
      this.nextLkey, this.totalRegisteredBytes := 1, 0;
      this.maxRegions, this.maxTotalBytes := maxRegions, maxTotalBytes;
    }

    /** Draws until a nonzero unused key comes up, at most a thousand times. */
    method GenerateRkey(draws: Draws) returns (rkey: Option<u32>)
      modifies this`usedRkeys
      ensures rkey == PickFrom(old(usedRkeys), draws, 0)
      ensures rkey.Some? ==> rkey.value != 0 && rkey.value !in old(usedRkeys)
      ensures usedRkeys == if rkey.Some? then old(usedRkeys) + {rkey.value} else old(usedRkeys)
    {
      for i := 0 to KEY_ATTEMPTS
        invariant usedRkeys == old(usedRkeys)
        invariant PickFrom(usedRkeys, draws, 0) == PickFrom(usedRkeys, draws, i)
      {
        var val := draws[i];
        if val != 0 && val !in usedRkeys {
          usedRkeys := usedRkeys + {val};
          return Some(val);
        }
      }
      return None;
    }

    method Register(pd: u32, flags: u32, len: u64, draws: Draws) returns (r: Reply)
      modifies this
      ensures (View(), r) == old(Perform(View(), Op.Register(pd, flags, len, draws)))
      ensures r.Registered? || r.Failed?
    {
      if |regions| >= maxRegions {
        return Failed(ErrInternal);
      }
      if totalRegisteredBytes + len > maxTotalBytes {
        return Failed(ErrBounds);
      }
      var lkey := nextLkey;
      nextLkey := nextLkey + 1;
      var key := GenerateRkey(draws);
      if key.None? {
        return Failed(ErrInternal);
      }
      var entry := Region(pd, lkey, key.value, flags, Zeros(len));
      rkeyToLkey := rkeyToLkey[key.value := lkey];
      regions := regions[lkey := entry];
      totalRegisteredBytes := totalRegisteredBytes + len;
      return Registered(lkey, key.value);
    }

    method Deregister(pd: u32, lkey: nat) returns (r: Reply)
      modifies this
      ensures (View(), r) == old(Perform(View(), Op.Deregister(pd, lkey)))
      ensures r.Done? || r.Failed?
    {
      if lkey !in regions {
        return Failed(ErrInvalidLkey);
      }
      var entry := regions[lkey];
      if entry.pd != pd {
        return Failed(ErrInvalidPd);
      }
      rkeyToLkey := rkeyToLkey - {entry.rkey};
      regions := regions - {lkey};
      totalRegisteredBytes := totalRegisteredBytes - |entry.data|;
      return Done;
    }

    method ValidateRkey(rkey: u32, required: u32) returns (r: Result<Region, ErrorCode>)
      requires required > 0
      ensures r == Lookup(View(), rkey, required)
    {
      if rkey !in rkeyToLkey {
        return Err(ErrInvalidMkey);
      }
      var lkey := rkeyToLkey[rkey];
      if lkey !in regions {
        return Err(ErrInvalidMkey);
      }
      if !Allows(regions[lkey].flags, required) {
        return Err(ErrAccessDenied);
      }
      return Ok(regions[lkey]);
    }

    method WriteRegion(rkey: u32, offset: u64, data: bytes) returns (r: Reply)
      modifies this`regions
      ensures (View(), r) == old(Perform(View(), WriteAt(rkey, offset, data)))
      ensures r.Done? || r.Failed?
    {
      var found := ValidateRkey(rkey, REMOTE_WRITE);
      if found.Err? {
        return Failed(found.error);
      }
      var entry := found.value;
      var end := offset + |data|;
      if end > |entry.data| {
        return Failed(ErrBounds);
      }
      regions := regions[rkeyToLkey[rkey] := entry.(data := Splice(entry.data, offset, data))];
      return Done;
    }

    method ReadRegion(rkey: u32, offset: u64, len: u64) returns (r: Reply)
      ensures (View(), r) == Perform(View(), ReadAt(rkey, offset, len))
      ensures r.Bytes? || r.Failed?
    {
      var found := ValidateRkey(rkey, REMOTE_READ);
      if found.Err? {
        return Failed(found.error);
      }
      var end := offset + len;
      if end > |found.value.data| {
        return Failed(ErrBounds);
      }
      return Bytes(found.value.data[offset..end]);
    }

    method AtomicOp(rkey: u32, va: u64, kind: byte, operand1: u64, operand2: u64) returns (r: Reply)
      modifies this`regions
      ensures (View(), r) == old(Perform(View(), AtomicAt(rkey, va, kind, operand1, operand2)))
      ensures r.Word? || r.Failed?
    {
      var found := ValidateRkey(rkey, REMOTE_ATOMIC);
      if found.Err? {
        return Failed(found.error);
      }
      var entry := found.value;
      if va % 8 != 0 {
        return Failed(ErrAlignment);
      }
      if va + 8 > |entry.data| {
        return Failed(ErrBounds);
      }
      var original := WordAt(entry.data, va);
      var newValue: u64;
      if kind == 0x01 {
        newValue := if original == operand1 then operand2 else original;
      } else if kind == 0x02 {
        newValue := (original + operand1) % U64_MOD;
      } else {
        return Failed(ErrUnknownOpcode);
      }
      regions := regions[rkeyToLkey[rkey] := entry.(data := Splice(entry.data, va, BigEndian(8, newValue)))];
      return Word(original);
    }
  }
}
