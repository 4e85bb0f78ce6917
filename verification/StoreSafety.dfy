/** What Save and Load preserve, whatever fails and wherever a crash falls. */
module StoreSafety {
  import opened Common
  import opened Envelope
  import opened StoreModel
  import opened StoreChain

  /** The file a reader would end up with: the value, else the backup. */
  function Effective(disk: Disk, c: Config): Option<Node>
  {
    if c.path in disk then Some(disk[c.path])
    else if c.Backup() in disk then Some(disk[c.Backup()])
    else None
  }

  /** The current-version payload a file stands for. */
  function NodeValue(n: Node, c: Config): Result<bytes, Failure>
  {
    if n.Dir? || |n.data| < HEADER_SIZE || |n.data| > c.maximumSize + HEADER_SIZE then Err(Corrupt)
    else BytesValue(n.data, c)
  }

  function BytesValue(data: bytes, c: Config): Result<bytes, Failure>
  {
    var decoded := Decode(data, c.maximumSize);
    if decoded.None? then Err(Corrupt)
    else if decoded.value.0 > c.version then Err(FutureVersion)
    else Upgrade(c, decoded.value.0, decoded.value.1)
  }

  function ValueOf(n: Option<Node>, c: Config): Result<bytes, Failure>
  {
    if n.None? then Err(Native) else NodeValue(n.value, c)
  }

  function Value(disk: Disk, c: Config): Result<bytes, Failure>
  {
    ValueOf(Effective(disk, c), c)
  }

  /** The value is exactly what the file stands for: an envelope's payload, migrated link by link. */
  lemma NodeValueExactly(n: Node, c: Config, result: Result<bytes, Failure>)
    requires ValidConfig(c)
    ensures NodeValue(n, c) == result <==> StandsFor(n, c, result)
  {
    hide Encode, Decode, Upgrade, Migrates, ValidConfig;
    if n.File? {
      forall version: uint32, payload: bytes
        ensures Contains(n, c, version, payload) <==> Decode(n.data, c.maximumSize) == Some((version, payload))
      {
        DecodeExact(n.data, c.maximumSize, version, payload);
      }
      var decoded := Decode(n.data, c.maximumSize);
      if decoded.Some? {
        var (version, payload) := decoded.value;
        assert Contains(n, c, version, payload);
        if version <= c.version {
          UpgradeExactly(c, version, payload, result);
        }
      }
    }
  }

  function Saved(c: Config, payload: bytes): Node
    requires |payload| <= c.maximumSize
  {
    File(Encode(c.version, payload))
  }

  ghost predicate SameExcept(a: Disk, b: Disk, p: string)
  {
    forall q :: q != p ==> (q in a <==> q in b) && (q in a ==> a[q] == b[q])
  }

  /** Nothing at the temporary's path stops it from being rewritten. */
  predicate TemporaryUsable(disk: Disk, c: Config)
  {
    c.Temporary() in disk ==> disk[c.Temporary()].File?
  }

  /** No operation fails and every write and read makes progress, perhaps short. */
  ghost predicate Reliable(h: Host)
  {
    forall n :: h.fate(n).ok && h.fate(n).count > 0
  }

  // ---------------------------------------------------------- the temporary

  lemma {:induction false} WriteFromSpec(h: Host, m: Machine, p: string, data: bytes, written: nat)
    requires IsFile(m.disk, p) && written <= |data| && m.disk[p].data == data[..written]
    ensures var r := WriteFrom(h, m, p, data, written);
            && SameExcept(m.disk, r.machine.disk, p) && IsFile(r.machine.disk, p)
            && (r.error.None? ==> r.machine.disk[p] == File(data))
            && (Reliable(h) ==> r.error.None?)
    decreases |data| - written
  {
    if written < |data| {
      var w := Write(h, m, p, data[written..]);
      var count := WriteCount(h, m, data[written..]);
      assert data[..written] + data[written..][..count] == data[..written + count];
      if w.error.None? && count > 0 {
        WriteFromSpec(h, w.machine, p, data, written + count);
      }
    } else {
      assert data[..written] == data;
    }
  }

  lemma WriteTemporarySpec(h: Host, m: Machine, p: string, data: bytes)
    ensures var r := WriteTemporary(h, m, p, data);
            && SameExcept(m.disk, r.machine.disk, p)
            && (r.error.None? ==> p in r.machine.disk && r.machine.disk[p] == File(data))
            && (p in r.machine.disk ==> r.machine.disk[p].File? || (p in m.disk && r.machine.disk[p] == m.disk[p]))
            && (Reliable(h) && (p in m.disk ==> m.disk[p].File?) ==> r.error.None?)
  {
    hide WriteFrom;
    var opening := OpenWrite(h, m, p);
    if opening.error.None? {
      assert data[..0] == [];
      WriteFromSpec(h, opening.machine, p, data, 0);
    }
  }

  // ----------------------------------------------------------------- publish

  /** What publishing may leave behind. */
  ghost predicate OldOrNew(before: Option<Node>, after: Option<Node>, next: Node)
  {
    after == before || after == Some(next)
  }

  lemma SwapSafe(h: Host, m: Machine, c: Config)
    requires c.path in m.disk && c.Temporary() in m.disk
    ensures var r := Swap(h, m, c);
            && OldOrNew(Some(m.disk[c.path]), Effective(r.machine.disk, c), m.disk[c.Temporary()])
            && (r.error.None? ==> c.path in r.machine.disk && r.machine.disk[c.path] == m.disk[c.Temporary()])
            && (c.Temporary() in r.machine.disk ==> r.machine.disk[c.Temporary()] == m.disk[c.Temporary()])
  {
    NamesDiffer(c);
  }

  lemma PublishSafe(h: Host, m: Machine, c: Config)
    requires c.path in m.disk && c.Temporary() in m.disk
    ensures var r := Publish(h, m, c);
            && OldOrNew(Some(m.disk[c.path]), Effective(r.machine.disk, c), m.disk[c.Temporary()])
            && (r.error.None? ==> c.path in r.machine.disk && r.machine.disk[c.path] == m.disk[c.Temporary()])
            && (c.Temporary() in r.machine.disk ==> r.machine.disk[c.Temporary()] == m.disk[c.Temporary()])
  {
    NamesDiffer(c);
    var direct := Rename(h, m, c.Temporary(), c.path);
    var removed := Remove(h, direct.machine, c.Backup()).machine;
    if direct.error.Some? {
      SwapSafe(h, removed, c);
      hide Swap;
    }
  }

  /**
   * With the value in place, Save leaves the old or the new value whatever
   * fails; and when it reports success the new value is in place.
   */
  lemma SaveSafe(h: Host, m: Machine, c: Config, payload: bytes)
    requires ValidConfig(c) && c.path in m.disk
    ensures var r := Save(h, m, c, payload);
            && (Effective(r.machine.disk, c) == Effective(m.disk, c)
                || (|payload| <= c.maximumSize && Effective(r.machine.disk, c) == Some(Saved(c, payload))))
            && (r.error.None? ==> |payload| <= c.maximumSize && c.path in r.machine.disk
                                  && r.machine.disk[c.path] == Saved(c, payload))
            && (TemporaryUsable(m.disk, c) ==> TemporaryUsable(r.machine.disk, c))
  {
    NamesDiffer(c);
    hide WriteTemporary, Publish, Encode;
    if |payload| <= c.maximumSize {
      var encoded := Encode(c.version, payload);
      WriteTemporarySpec(h, m, c.Temporary(), encoded);
      var written := WriteTemporary(h, m, c.Temporary(), encoded);
      if written.error.None? {
        PublishSafe(h, written.machine, c);
      }
    }
  }

  /** When publishing fails although its last operation worked, the old value is in place. */
  lemma PublishRestores(h: Host, m: Machine, c: Config)
    requires c.path in m.disk && c.Temporary() in m.disk && Publish(h, m, c).error.Some?
    ensures var r := Publish(h, m, c);
            && r.machine.step > m.step
            && (h.fate(r.machine.step - 1).ok && m.disk[c.path].File? ==>
                  c.path in r.machine.disk && r.machine.disk[c.path] == m.disk[c.path])
  {
    NamesDiffer(c);
  }

  /**
   * A Save that fails puts the old value back: it is in place again unless the
   * very last operation, which is the roll-back if there is one, failed too.
   */
  lemma SaveRollsBack(h: Host, m: Machine, c: Config, payload: bytes)
    requires ValidConfig(c) && IsFile(m.disk, c.path) && |payload| <= c.maximumSize && Save(h, m, c, payload).error.Some?
    ensures var r := Save(h, m, c, payload);
            && r.machine.step > m.step
            && (h.fate(r.machine.step - 1).ok ==> c.path in r.machine.disk && r.machine.disk[c.path] == m.disk[c.path])
  {
    NamesDiffer(c);
    var encoded := Encode(c.version, payload);
    hide Publish, Encode, WriteTemporary;
    WriteTemporarySpec(h, m, c.Temporary(), encoded);
    WriteTemporarySteps(h, m, c.Temporary(), encoded);
    var written := WriteTemporary(h, m, c.Temporary(), encoded);
    if written.error.None? {
      PublishRestores(h, written.machine, c);
    }
  }

  lemma {:induction false} WriteFromSteps(h: Host, m: Machine, p: string, data: bytes, written: nat)
    requires IsFile(m.disk, p) && written <= |data|
    ensures WriteFrom(h, m, p, data, written).machine.step >= m.step
    decreases |data| - written
  {
    if written < |data| {
      var w := Write(h, m, p, data[written..]);
      var count := WriteCount(h, m, data[written..]);
      if w.error.None? && count > 0 {
        WriteFromSteps(h, w.machine, p, data, written + count);
      }
    }
  }

  lemma WriteTemporarySteps(h: Host, m: Machine, p: string, data: bytes)
    ensures WriteTemporary(h, m, p, data).machine.step > m.step
  {
    var opening := OpenWrite(h, m, p);
    if opening.error.None? {
      WriteFromSteps(h, opening.machine, p, data, 0);
      hide WriteFrom;
    }
  }

  // ------------------------------------------ a start with only the backup

  /** Publishing when the value is missing: a plain rename, or nothing but a removed backup. */
  lemma PublishWithoutValue(h: Host, m: Machine, c: Config)
    requires c.path !in m.disk && c.Temporary() in m.disk
    ensures var r := Publish(h, m, c);
            var renamed := h.fate(m.step).ok;
            var removed := h.fate(m.step + 1).ok;
            && (r.error.None? <==> renamed)
            && Effective(r.machine.disk, c) ==
               (if renamed then Some(m.disk[c.Temporary()]) else if removed then None else Effective(m.disk, c))
  {
    NamesDiffer(c);
    assert Rename(h, m, c.Temporary(), c.path).error.None? <==> h.fate(m.step).ok;
  }

  /** Everything works at full length except operation `failing`. */
  function FailsAt(failing: nat, length: nat): Host
  {
    Host(true, n => Fate(n != failing, length, false))
  }

  lemma FullWrite(h: Host, m: Machine, p: string, data: bytes)
    requires data != [] && (p in m.disk ==> m.disk[p].File?)
    requires forall n :: m.step <= n < m.step + 4 ==> h.fate(n).ok && h.fate(n).count >= |data|
    ensures var r := WriteTemporary(h, m, p, data);
            r.error.None? && r.machine.step == m.step + 4
  {
    var opening := OpenWrite(h, m, p);
    var w := Write(h, opening.machine, p, data[0..]);
    assert WriteCount(h, opening.machine, data[0..]) == |data|;
    assert WriteFrom(h, opening.machine, p, data, 0) == WriteFrom(h, w.machine, p, data, |data|);
  }

  /** Whether one Save on one host leaves the old or the new value. */
  ghost predicate SaveKeeps(h: Host, m: Machine, c: Config, payload: bytes)
    requires ValidConfig(c)
  {
    var after := Effective(Save(h, m, c, payload).machine.disk, c);
    after == Effective(m.disk, c) || (|payload| <= c.maximumSize && after == Some(Saved(c, payload)))
  }

  /** The starts from which Save cannot lose the stored value. */
  predicate SafeStart(m: Machine, c: Config, payload: bytes)
  {
    || c.path in m.disk
    || c.Backup() !in m.disk
    || |payload| > c.maximumSize
    || !TemporaryUsable(m.disk, c)
  }

  /**
   * Save keeps the old or the new value under every behaviour of the file
   * system exactly from the safe starts: with only the backup left, a failing
   * first rename followed by the removal of the backup loses the value.
   */
  lemma SaveSafeExactly(m: Machine, c: Config, payload: bytes)
    requires ValidConfig(c)
    ensures (forall h :: SaveKeeps(h, m, c, payload)) <==> SafeStart(m, c, payload)
  {
    if SafeStart(m, c, payload) {
      forall h ensures SaveKeeps(h, m, c, payload) {
        SafeStartKeeps(h, m, c, payload);
      }
    } else {
      BackupLost(m, c, payload);
    }
  }

  lemma SafeStartKeeps(h: Host, m: Machine, c: Config, payload: bytes)
    requires ValidConfig(c) && SafeStart(m, c, payload)
    ensures SaveKeeps(h, m, c, payload)
  {
    NamesDiffer(c);
    hide WriteTemporary, Publish, Encode;
    if c.path in m.disk {
      SaveSafe(h, m, c, payload);
    } else if |payload| <= c.maximumSize {
      var encoded := Encode(c.version, payload);
      WriteTemporarySpec(h, m, c.Temporary(), encoded);
      var written := WriteTemporary(h, m, c.Temporary(), encoded);
      if written.error.None? {
        PublishWithoutValue(h, written.machine, c);
        if !TemporaryUsable(m.disk, c) {
          DirectoryBlocks(h, m, c.Temporary(), encoded);
        }
      }
    }
  }

  lemma DirectoryBlocks(h: Host, m: Machine, p: string, data: bytes)
    requires p in m.disk && m.disk[p].Dir?
    ensures WriteTemporary(h, m, p, data).error.Some?
  {
  }

  lemma BackupLost(m: Machine, c: Config, payload: bytes)
    requires ValidConfig(c) && !SafeStart(m, c, payload)
    ensures exists h :: !SaveKeeps(h, m, c, payload)
  {
    NamesDiffer(c);
    var encoded := Encode(c.version, payload);
    var h := FailsAt(m.step + 4, |encoded|);
    WriteTemporarySpec(h, m, c.Temporary(), encoded);
    FullWrite(h, m, c.Temporary(), encoded);
    var written := WriteTemporary(h, m, c.Temporary(), encoded);
    PublishWithoutValue(h, written.machine, c);
    hide WriteTemporary, Publish, Encode;
    assert !SaveKeeps(h, m, c, payload);
  }

  // -------------------------------------------------------------------- Load

  /**
   * Load takes any Stat error for a missing value. When Stat fails although
   * the value is there, a leftover backup is renamed over it, if Rename
   * overwrites.
   */
  predicate Shadowed(h: Host, m: Machine, c: Config)
  {
    && h.overwrites && IsFile(m.disk, c.path) && c.Backup() in m.disk
    && !h.fate(m.step).ok && h.fate(m.step + 1).ok && h.fate(m.step + 2).ok
  }

  /** The file Load works on. */
  function Seen(h: Host, m: Machine, c: Config): Option<Node>
  {
    if Shadowed(h, m, c) then Some(m.disk[c.Backup()]) else Effective(m.disk, c)
  }

  lemma LocateSpec(h: Host, m: Machine, c: Config)
    ensures var r := Locate(h, m, c);
            && Effective(r.machine.disk, c) == Seen(h, m, c)
            && (r.info.Ok? ==> c.path in r.machine.disk && r.info.value == InfoOf(r.machine.disk[c.path]))
            && (TemporaryUsable(m.disk, c) ==> TemporaryUsable(r.machine.disk, c))
            && (Reliable(h) ==> (r.info.Ok? <==> Effective(m.disk, c).Some?))
            && (r.info.Err? ==> r.info.error == Native)
  {
    NamesDiffer(c);
  }

  lemma {:induction false} ReadFromReliable(h: Host, m: Machine, p: string, read: nat)
    requires IsFile(m.disk, p) && read <= |m.disk[p].data| && Reliable(h)
    ensures ReadFrom(h, m, p, |m.disk[p].data|, read).read == |m.disk[p].data|
    decreases |m.disk[p].data| - read
  {
    if read < |m.disk[p].data| {
      var count := ReadCount(h, m, p, read, |m.disk[p].data| - read);
      assert h.fate(m.step).ok && count > 0;
      ReadFromReliable(h, Tick(m), p, read + count);
    }
  }

  lemma ReadValueSpec(h: Host, m: Machine, c: Config)
    requires c.path in m.disk
    ensures var n := m.disk[c.path];
            var r := ReadValue(h, m, c, InfoOf(n));
            && r.machine.disk == m.disk
            && (r.result.Ok? ==> n == File(r.result.value) && NodeValue(n, c) == BytesValue(n.data, c))
            && (Reliable(h) ==> if r.result.Err? then NodeValue(n, c) == Err(Corrupt) && r.result == Err(Corrupt) else true)
  {
    hide ReadFrom, BytesValue;
    var n := m.disk[c.path];
    if n.File? && Reliable(h) {
      ReadFromReliable(h, Tick(m), c.path, 0);
    }
  }

  /**
   * How the first Read decides: when it delivers everything, an error that
   * comes with it is forgiven; when it does not, a failure of the runtime's
   * own file operations is passed on and any other, or no progress, means a
   * corrupt value.
   */
  lemma FirstReadDecides(h: Host, m: Machine, c: Config)
    requires IsFile(m.disk, c.path) && HEADER_SIZE <= |m.disk[c.path].data| <= c.maximumSize + HEADER_SIZE
    requires h.fate(m.step).ok
    ensures var data, first := m.disk[c.path].data, h.fate(m.step + 1);
            var result := ReadValue(h, m, c, InfoOf(m.disk[c.path])).result;
            && (first.count >= |data| ==> result == if h.fate(m.step + 2).ok then Ok(data) else Err(Native))
            && (first.count < |data| && !first.ok ==> result == Err(if first.native then Native else Corrupt))
            && (first.count == 0 && first.ok ==> result == Err(Corrupt))
  {
    var data := m.disk[c.path].data;
    var reading := Tick(m);
    if h.fate(m.step + 1).count >= |data| {
      assert ReadCount(h, reading, c.path, 0, |data|) == |data|;
      assert ReadFrom(h, Tick(reading), c.path, |data|, |data|) == ReadEnd(|data|, false, false, Tick(reading));
    }
  }

  lemma {:induction false} UpgradeFits(c: Config, version: uint32, payload: bytes)
    requires version <= c.version && |payload| <= c.maximumSize
    ensures Upgrade(c, version, payload).Ok? ==> |Upgrade(c, version, payload).value| <= c.maximumSize
    decreases c.version - version
  {
    if version < c.version {
      var next := MigrateOnce(c, version, payload);
      if next.Ok? {
        UpgradeFits(c, version + 1, next.value);
      }
    }
  }

  /** A saved file stands for its payload. */
  lemma SavedValue(c: Config, payload: bytes)
    requires ValidConfig(c) && |payload| <= c.maximumSize
    ensures NodeValue(Saved(c, payload), c) == Ok(payload)
  {
    DecodeExact(Encode(c.version, payload), c.maximumSize, c.version, payload);
    hide Decode, Encode;
  }

  /** What Load may do once it has settled on a file. */
  ghost predicate Delivered(seen: Option<Node>, c: Config, r: Loaded)
  {
    var value := ValueOf(seen, c);
    && (r.result.Ok? ==> r.result == value && c.path in r.machine.disk)
    && (Effective(r.machine.disk, c) == seen
        || (value.Ok? && |value.value| <= c.maximumSize && Effective(r.machine.disk, c) == Some(Saved(c, value.value))))
  }

  lemma DeliverSpec(h: Host, m: Machine, c: Config, data: bytes, version: uint32, payload: bytes)
    requires ValidConfig(c) && c.path in m.disk && m.disk[c.path] == File(data)
    requires NodeValue(File(data), c) == BytesValue(data, c) && Decode(data, c.maximumSize) == Some((version, payload))
    ensures Delivered(Some(m.disk[c.path]), c, Deliver(h, m, c, version, payload))
    ensures TemporaryUsable(m.disk, c) ==> TemporaryUsable(Deliver(h, m, c, version, payload).machine.disk, c)
    ensures Reliable(h) && TemporaryUsable(m.disk, c) ==> Deliver(h, m, c, version, payload).result == BytesValue(data, c)
  {
    NamesDiffer(c);
    hide Decode, Save, Upgrade, NodeValue;
    if version == c.version {
      UpgradeDone(c, payload);
    } else if version < c.version {
      DecodedFits(data, c.maximumSize, version, payload);
      UpgradeFits(c, version, payload);
      var upgraded := Upgrade(c, version, payload);
      if upgraded.Ok? {
        SaveSafe(h, m, c, upgraded.value);
        if Reliable(h) && TemporaryUsable(m.disk, c) {
          SaveReliable(h, m, c, upgraded.value);
        }
      }
    }
  }

  lemma UpgradeDone(c: Config, payload: bytes)
    ensures Upgrade(c, c.version, payload) == Ok(payload)
  {
  }

  lemma DecodedFits(data: bytes, maximumSize: uint32, version: uint32, payload: bytes)
    requires Decode(data, maximumSize) == Some((version, payload))
    ensures |payload| <= maximumSize
  {
    DecodeExact(data, maximumSize, version, payload);
  }

  /**
   * Whatever fails during Load: a payload it returns is the one the file it
   * settled on stands for, and the disk then stands for that payload.
   */
  lemma LoadHonest(h: Host, m: Machine, c: Config)
    requires ValidConfig(c)
    ensures Delivered(Seen(h, m, c), c, Load(h, m, c))
    ensures TemporaryUsable(m.disk, c) ==> TemporaryUsable(Load(h, m, c).machine.disk, c)
  {
    hide Locate, ReadValue, Deliver, NodeValue, BytesValue, Decode, Seen;
    LocateSpec(h, m, c);
    LocatedPresent(h, m, c);
    var located := Locate(h, m, c);
    if located.info.Ok? {
      ReadValueSpec(h, located.machine, c);
      var encoded := ReadValue(h, located.machine, c, located.info.value);
      if encoded.result.Ok? {
        var decoded := Decode(encoded.result.value, c.maximumSize);
        if decoded.Some? {
          DeliverSpec(h, encoded.machine, c, encoded.result.value, decoded.value.0, decoded.value.1);
        }
      }
    }
  }

  /** After Load the disk stands for the value of the file Load settled on. */
  lemma LoadValue(h: Host, m: Machine, c: Config)
    requires ValidConfig(c)
    ensures Value(Load(h, m, c).machine.disk, c) == ValueOf(Seen(h, m, c), c)
    ensures Load(h, m, c).result.Ok? ==> Load(h, m, c).result == ValueOf(Seen(h, m, c), c)
    ensures Load(h, m, c).result.Ok? ==> Seen(h, m, c).Some? && StandsFor(Seen(h, m, c).value, c, Load(h, m, c).result)
  {
    if Seen(h, m, c).Some? {
      NodeValueExactly(Seen(h, m, c).value, c, ValueOf(Seen(h, m, c), c));
    }
    hide StandsFor;
    LoadHonest(h, m, c);
    hide Load, NodeValue, Seen;
    var value := ValueOf(Seen(h, m, c), c);
    if value.Ok? && |value.value| <= c.maximumSize {
      SavedValue(c, value.value);
    }
  }

  /** The disks on which no failure makes Load change the stored value. */
  ghost predicate SafeToLoad(overwrites: bool, disk: Disk, c: Config)
  {
    overwrites && IsFile(disk, c.path) && c.Backup() in disk ==>
      NodeValue(disk[c.Backup()], c) == NodeValue(disk[c.path], c)
  }

  /**
   * Load keeps the stored value under every failure exactly when no backup
   * with another value lies beside a value that Rename would overwrite.
   */
  lemma LoadKeepsExactly(overwrites: bool, m: Machine, c: Config)
    requires ValidConfig(c)
    ensures (forall h: Host | h.overwrites == overwrites :: Value(Load(h, m, c).machine.disk, c) == Value(m.disk, c))
            <==> SafeToLoad(overwrites, m.disk, c)
  {
    if SafeToLoad(overwrites, m.disk, c) {
      forall h: Host | h.overwrites == overwrites
        ensures Value(Load(h, m, c).machine.disk, c) == Value(m.disk, c)
      {
        LoadValue(h, m, c);
        hide Load, NodeValue;
      }
    } else {
      var h := Host(true, n => Fate(n != m.step, 1, false));
      LoadValue(h, m, c);
      assert Shadowed(h, m, c);
      hide Load, NodeValue;
      assert Value(Load(h, m, c).machine.disk, c) != Value(m.disk, c);
    }
  }

  // ------------------------------------------------------- without failures

  lemma PublishReliable(h: Host, m: Machine, c: Config)
    requires Reliable(h) && c.Temporary() in m.disk && m.disk[c.Temporary()].File?
    ensures var r := Publish(h, m, c);
            && r.error.None?
            && c.path in r.machine.disk && r.machine.disk[c.path] == m.disk[c.Temporary()]
            && c.Temporary() !in r.machine.disk && c.Backup() !in r.machine.disk
  {
    NamesDiffer(c);
    var direct := Rename(h, m, c.Temporary(), c.path);
    var removed := Remove(h, direct.machine, c.Backup()).machine;
    if direct.error.Some? {
      assert c.path in m.disk;
      SwapReliable(h, removed, c);
      hide Swap;
    }
  }

  lemma SwapReliable(h: Host, m: Machine, c: Config)
    requires Reliable(h) && c.Temporary() in m.disk && m.disk[c.Temporary()].File?
    requires c.path in m.disk && c.Backup() !in m.disk
    ensures var r := Swap(h, m, c);
            && r.error.None?
            && c.path in r.machine.disk && r.machine.disk[c.path] == m.disk[c.Temporary()]
            && c.Temporary() !in r.machine.disk && c.Backup() !in r.machine.disk
  {
    NamesDiffer(c);
  }

  /** Without failures Save succeeds on both kinds of Rename and tidies up. */
  lemma SaveReliable(h: Host, m: Machine, c: Config, payload: bytes)
    requires ValidConfig(c) && Reliable(h) && TemporaryUsable(m.disk, c) && |payload| <= c.maximumSize
    ensures var r := Save(h, m, c, payload);
            && r.error.None?
            && c.path in r.machine.disk && r.machine.disk[c.path] == Saved(c, payload)
            && c.Temporary() !in r.machine.disk && c.Backup() !in r.machine.disk
  {
    hide WriteTemporary, Publish, Encode;
    var encoded := Encode(c.version, payload);
    WriteTemporarySpec(h, m, c.Temporary(), encoded);
    PublishReliable(h, WriteTemporary(h, m, c.Temporary(), encoded).machine, c);
  }

  /** Without failures Load returns exactly the value the disk stands for. */
  lemma LoadReliable(h: Host, m: Machine, c: Config)
    requires ValidConfig(c) && Reliable(h) && TemporaryUsable(m.disk, c)
    ensures Load(h, m, c).result == Value(m.disk, c)
    ensures match Effective(m.disk, c)
            case Some(n) => StandsFor(n, c, Load(h, m, c).result)
            case None => Load(h, m, c).result == Err(Native)
  {
    if Effective(m.disk, c).Some? {
      NodeValueExactly(Effective(m.disk, c).value, c, NodeValue(Effective(m.disk, c).value, c));
    }
    hide StandsFor;
    hide Locate, ReadValue, Deliver, NodeValue, BytesValue, Decode;
    LocateSpec(h, m, c);
    LocatedPresent(h, m, c);
    var located := Locate(h, m, c);
    if located.info.Ok? {
      ReadValueSpec(h, located.machine, c);
      var encoded := ReadValue(h, located.machine, c, located.info.value);
      if encoded.result.Ok? {
        var decoded := Decode(encoded.result.value, c.maximumSize);
        if decoded.Some? {
          DeliverSpec(h, encoded.machine, c, encoded.result.value, decoded.value.0, decoded.value.1);
        } else {
          Undecodable(encoded.result.value, c);
        }
      }
    }
  }

  lemma DeliverPersists(h: Host, m: Machine, c: Config, data: bytes, version: uint32, payload: bytes)
    requires ValidConfig(c) && Reliable(h) && TemporaryUsable(m.disk, c) && c.path in m.disk && m.disk[c.path] == File(data)
    requires Decode(data, c.maximumSize) == Some((version, payload)) && Deliver(h, m, c, version, payload).result.Ok?
    ensures var r := Deliver(h, m, c, version, payload);
            && c.path in r.machine.disk && |r.result.value| <= c.maximumSize
            && r.machine.disk[c.path] == Saved(c, r.result.value) && c.Backup() !in r.machine.disk
  {
    NamesDiffer(c);
    DecodeExact(data, c.maximumSize, version, payload);
    hide Decode, Encode, Save, Upgrade;
    if version < c.version {
      UpgradeFits(c, version, payload);
      SaveReliable(h, m, c, Upgrade(c, version, payload).value);
    }
  }

  /**
   * A Load without failures leaves its result stored under the current
   * version, migrated or not, and no backup.
   */
  lemma LoadPersists(h: Host, m: Machine, c: Config)
    requires ValidConfig(c) && Reliable(h) && TemporaryUsable(m.disk, c) && Load(h, m, c).result.Ok?
    ensures var r := Load(h, m, c);
            && c.path in r.machine.disk && |r.result.value| <= c.maximumSize
            && r.machine.disk[c.path] == Saved(c, r.result.value) && c.Backup() !in r.machine.disk
  {
    hide Locate, ReadValue, Deliver, NodeValue, BytesValue, Decode, Encode;
    LocateSpec(h, m, c);
    LocatedPresent(h, m, c);
    var located := Locate(h, m, c);
    ReadValueSpec(h, located.machine, c);
    var encoded := ReadValue(h, located.machine, c, located.info.value);
    var decoded := Decode(encoded.result.value, c.maximumSize);
    DeliverPersists(h, encoded.machine, c, encoded.result.value, decoded.value.0, decoded.value.1);
  }

  lemma Undecodable(data: bytes, c: Config)
    requires Decode(data, c.maximumSize).None?
    ensures BytesValue(data, c) == Err(Corrupt)
  {
    hide Decode;
  }

  // -------------------------------------------------------------- main results

  /**
   * After a Save that may have failed or crashed at any operation, the next
   * Load returns exactly the old or the new payload, and the new one when the
   * Save reported success.
   */
  lemma SaveThenLoad(during: Host, later: Host, m: Machine, c: Config, payload: bytes)
    requires ValidConfig(c) && c.path in m.disk && TemporaryUsable(m.disk, c) && Reliable(later)
    ensures var saved := Save(during, m, c, payload);
            var loaded := Load(later, saved.machine, c).result;
            && (loaded == Value(m.disk, c) || loaded == Ok(payload))
            && (saved.error.None? ==> loaded == Ok(payload))
  {
    SaveSafe(during, m, c, payload);
    if |payload| <= c.maximumSize {
      SavedValue(c, payload);
    }
    LoadReliable(later, Save(during, m, c, payload).machine, c);
    hide Save, Load, NodeValue;
  }

  /** A Load interrupted anywhere, even while migrating, can be retried. */
  lemma LoadRetry(during: Host, later: Host, m: Machine, c: Config)
    requires ValidConfig(c) && TemporaryUsable(m.disk, c) && Reliable(later)
    requires SafeToLoad(during.overwrites, m.disk, c)
    ensures Load(later, Load(during, m, c).machine, c).result == Value(m.disk, c)
  {
    LoadKeepsExactly(during.overwrites, m, c);
    LoadHonest(during, m, c);
    hide Load, Value;
    LoadReliable(later, Load(during, m, c).machine, c);
  }

  /** Works except at three operations, counted from `start`. */
  function FailsAtThree(start: nat, length: nat): Host
  {
    Host(true, n => Fate(n != start + 4 && n != start + 8 && n != start + 9, length, false))
  }

  /**
   * An acknowledged Save can be lost: a failed first rename, a failed removal
   * of the backup after the swap, then a Stat failure in the next Load bring
   * the old payload back.
   */
  lemma AcknowledgedSaveLost(m: Machine, c: Config, previous: bytes, payload: bytes)
    requires ValidConfig(c) && |previous| <= c.maximumSize && |payload| <= c.maximumSize
    requires m.disk == map[c.path := Saved(c, previous)]
    ensures var h := FailsAtThree(m.step, MAXIMUM_STORE_SIZE + HEADER_SIZE);
            var saved := Save(h, m, c, payload);
            && saved.error.None?
            && Value(saved.machine.disk, c) == Ok(payload)
            && Value(Load(h, saved.machine, c).machine.disk, c) == Ok(previous)
  {
    NamesDiffer(c);
    var h := FailsAtThree(m.step, MAXIMUM_STORE_SIZE + HEADER_SIZE);
    var encoded := Encode(c.version, payload);
    FullWrite(h, m, c.Temporary(), encoded);
    WriteTemporarySpec(h, m, c.Temporary(), encoded);
    var written := WriteTemporary(h, m, c.Temporary(), encoded).machine;
    SwapLeavesBackup(h, written, c);
    SavedValue(c, previous);
    SavedValue(c, payload);
    hide WriteTemporary, Publish, Encode, Load, NodeValue;
    var saved := Save(h, m, c, payload).machine;
    assert saved == Publish(h, written, c).machine;
    LoadValue(h, saved, c);
    assert Shadowed(h, saved, c);
  }

  lemma SwapLeavesBackup(h: Host, m: Machine, c: Config)
    requires h.overwrites && c.path in m.disk && c.Temporary() in m.disk && c.Backup() !in m.disk
    requires m.disk[c.Temporary()].File?
    requires !h.fate(m.step).ok && h.fate(m.step + 2).ok && h.fate(m.step + 3).ok && !h.fate(m.step + 4).ok
    ensures var r := Publish(h, m, c);
            && r.error.None? && r.machine.step == m.step + 5
            && c.path in r.machine.disk && r.machine.disk[c.path] == m.disk[c.Temporary()]
            && c.Backup() in r.machine.disk && r.machine.disk[c.Backup()] == m.disk[c.path]
  {
    NamesDiffer(c);
  }

  // ------------------------------------------------- the temporary is not read

  /** Load's result does not depend on what an unfinished Save left in the temporary. */
  lemma LoadIgnoresTemporary(h: Host, m: Machine, n: Machine, c: Config)
    requires ValidConfig(c) && m.step == n.step && SameExcept(m.disk, n.disk, c.Temporary())
    requires TemporaryUsable(m.disk, c) && TemporaryUsable(n.disk, c)
    ensures Load(h, m, c).result == Load(h, n, c).result
    ensures SameExcept(Load(h, m, c).machine.disk, Load(h, n, c).machine.disk, c.Temporary())
  {
    hide Locate, ReadValue, Deliver, Decode;
    LocateSame(h, m, n, c);
    LocatedPresent(h, m, c);
    LocatedPresent(h, n, c);
    var a, b := Locate(h, m, c), Locate(h, n, c);
    if a.info.Ok? {
      NamesDiffer(c);
      ReadSame(h, a.machine, b.machine, c);
      var encoded := ReadValue(h, a.machine, c, a.info.value);
      if encoded.result.Ok? {
        var decoded := Decode(encoded.result.value, c.maximumSize);
        if decoded.Some? {
          DeliverSame(h, encoded.machine, ReadValue(h, b.machine, c, b.info.value).machine, c, decoded.value.0, decoded.value.1);
        }
      }
    }
  }

  lemma LocateSame(h: Host, m: Machine, n: Machine, c: Config)
    requires m.step == n.step && SameExcept(m.disk, n.disk, c.Temporary())
    requires TemporaryUsable(m.disk, c) && TemporaryUsable(n.disk, c)
    ensures var a, b := Locate(h, m, c), Locate(h, n, c);
            && a.info == b.info && a.machine.step == b.machine.step
            && SameExcept(a.machine.disk, b.machine.disk, c.Temporary())
            && TemporaryUsable(a.machine.disk, c) && TemporaryUsable(b.machine.disk, c)
  {
    NamesDiffer(c);
  }

  lemma {:induction false} ReadFromSame(h: Host, m: Machine, n: Machine, p: string, size: nat, read: nat)
    requires m.step == n.step && IsFile(m.disk, p) && IsFile(n.disk, p) && m.disk[p] == n.disk[p]
    requires read <= size <= |m.disk[p].data|
    ensures var a, b := ReadFrom(h, m, p, size, read), ReadFrom(h, n, p, size, read);
            a.read == b.read && a.failed == b.failed && a.native == b.native && a.machine.step == b.machine.step
    decreases size - read
  {
    if read < size {
      var count := ReadCount(h, m, p, read, size - read);
      if h.fate(m.step).ok && count > 0 {
        ReadFromSame(h, Tick(m), Tick(n), p, size, read + count);
      }
    }
  }

  lemma ReadSame(h: Host, m: Machine, n: Machine, c: Config)
    requires m.step == n.step && c.path in m.disk && c.path in n.disk && m.disk[c.path] == n.disk[c.path]
    ensures var info := InfoOf(m.disk[c.path]);
            var a, b := ReadValue(h, m, c, info), ReadValue(h, n, c, info);
            && a.result == b.result && a.machine.step == b.machine.step
            && a.machine.disk == m.disk && b.machine.disk == n.disk
  {
    if IsFile(m.disk, c.path) {
      ReadFromSame(h, Tick(m), Tick(n), c.path, |m.disk[c.path].data|, 0);
      hide ReadFrom;
    }
  }

  lemma DeliverSame(h: Host, m: Machine, n: Machine, c: Config, version: uint32, payload: bytes)
    requires ValidConfig(c) && m.step == n.step && SameExcept(m.disk, n.disk, c.Temporary())
    requires TemporaryUsable(m.disk, c) && TemporaryUsable(n.disk, c)
    ensures var a, b := Deliver(h, m, c, version, payload), Deliver(h, n, c, version, payload);
            a.result == b.result && SameExcept(a.machine.disk, b.machine.disk, c.Temporary())
  {
    NamesDiffer(c);
    hide Save, Upgrade;
    if version < c.version && Upgrade(c, version, payload).Ok? {
      SaveSame(h, m, n, c, Upgrade(c, version, payload).value);
    }
  }

  lemma SaveSame(h: Host, m: Machine, n: Machine, c: Config, payload: bytes)
    requires ValidConfig(c) && m.step == n.step && SameExcept(m.disk, n.disk, c.Temporary())
    requires TemporaryUsable(m.disk, c) && TemporaryUsable(n.disk, c)
    ensures var a, b := Save(h, m, c, payload), Save(h, n, c, payload);
            a.error == b.error && SameExcept(a.machine.disk, b.machine.disk, c.Temporary())
  {
    hide WriteFrom, Publish, Encode;
    var a, b := OpenWrite(h, m, c.Temporary()), OpenWrite(h, n, c.Temporary());
    if a.error.None? {
      assert a.machine.disk == b.machine.disk;
    }
  }

  // --------------------------------------------------------------------- runs

  datatype Call = SaveCall(payload: bytes) | LoadCall

  datatype Reply = SaveReply(error: Option<Failure>) | LoadReply(result: Result<bytes, Failure>)

  function Perform(h: Host, m: Machine, c: Config, call: Call): (Reply, Machine)
    requires ValidConfig(c)
  {
    if call.SaveCall? then
      var s := Save(h, m, c, call.payload);
      (SaveReply(s.error), s.machine)
    else
      var l := Load(h, m, c);
      (LoadReply(l.result), l.machine)
  }

  predicate Succeeded(reply: Reply)
  {
    if reply.SaveReply? then reply.error.None? else reply.result.Ok?
  }

  /** The payloads a later Load may return: a failed Save may or may not have taken effect. */
  function Possible(allowed: set<bytes>, call: Call, reply: Reply): set<bytes>
  {
    if call.SaveCall? then (if Succeeded(reply) then {call.payload} else allowed + {call.payload})
    else if reply.LoadReply? && reply.result.Ok? then {reply.result.value}
    else allowed
  }

  /**
   * Every Save of the run begins in a safe start and no Load finds the value
   * hidden while a backup is left over. Calls may fail and be retried.
   */
  predicate Disciplined(h: Host, m: Machine, c: Config, calls: seq<Call>)
    requires ValidConfig(c)
    decreases |calls|
  {
    calls == [] ||
    ((if calls[0].SaveCall? then SafeStart(m, c, calls[0].payload) else !Shadowed(h, m, c)) &&
     Disciplined(h, Perform(h, m, c, calls[0]).1, c, calls[1..]))
  }

  /** Every Load of the run returns a payload that is possible at its time. */
  predicate RunConsistent(h: Host, m: Machine, c: Config, calls: seq<Call>, allowed: set<bytes>)
    requires ValidConfig(c)
    decreases |calls|
  {
    calls == [] ||
    (var (reply, next) := Perform(h, m, c, calls[0]);
     (reply.LoadReply? && reply.result.Ok? ==> reply.result.value in allowed) &&
     RunConsistent(h, next, c, calls[1..], Possible(allowed, calls[0], reply)))
  }

  /** A Save that succeeds from a safe start with a readable value has put its own file in place. */
  lemma SuccessFromSafeStart(h: Host, m: Machine, c: Config, payload: bytes)
    requires ValidConfig(c) && SafeStart(m, c, payload) && Effective(m.disk, c).Some?
    requires Save(h, m, c, payload).error.None?
    ensures |payload| <= c.maximumSize && Effective(Save(h, m, c, payload).machine.disk, c) == Some(Saved(c, payload))
  {
    NamesDiffer(c);
    hide WriteTemporary, Publish, Encode;
    if c.path in m.disk {
      SaveSafe(h, m, c, payload);
    } else {
      DirectoryBlocks(h, m, c.Temporary(), Encode(c.version, payload));
    }
  }

  lemma SaveStep(h: Host, m: Machine, c: Config, payload: bytes, allowed: set<bytes>)
    requires ValidConfig(c) && Value(m.disk, c).Ok? && Value(m.disk, c).value in allowed
    requires SafeStart(m, c, payload)
    ensures var r := Save(h, m, c, payload);
            && Value(r.machine.disk, c).Ok?
            && Value(r.machine.disk, c).value in (if r.error.None? then {payload} else allowed + {payload})
  {
    SafeStartKeeps(h, m, c, payload);
    if |payload| <= c.maximumSize {
      SavedValue(c, payload);
    }
    if Save(h, m, c, payload).error.None? {
      SuccessFromSafeStart(h, m, c, payload);
    }
    hide Save, NodeValue;
  }

  lemma PerformStep(h: Host, m: Machine, c: Config, call: Call, allowed: set<bytes>)
    requires ValidConfig(c) && Value(m.disk, c).Ok? && Value(m.disk, c).value in allowed
    requires if call.SaveCall? then SafeStart(m, c, call.payload) else !Shadowed(h, m, c)
    ensures var (reply, next) := Perform(h, m, c, call);
            && (reply.LoadReply? && reply.result.Ok? ==> reply.result.value in allowed)
            && Value(next.disk, c).Ok? && Value(next.disk, c).value in Possible(allowed, call, reply)
  {
    if call.SaveCall? {
      SaveStep(h, m, c, call.payload, allowed);
      hide Save, NodeValue;
    } else {
      LoadValue(h, m, c);
      LoadHonest(h, m, c);
      hide Load, NodeValue;
    }
  }

  /**
   * Over every run of Saves and Loads with failures and crashes anywhere,
   * each Save from a safe start, each successful Load returns the payload of
   * the last acknowledged Save or of an unacknowledged one after it.
   */
  lemma {:induction false} RunSafe(h: Host, m: Machine, c: Config, calls: seq<Call>, allowed: set<bytes>)
    requires ValidConfig(c) && Value(m.disk, c).Ok? && Value(m.disk, c).value in allowed
    requires Disciplined(h, m, c, calls)
    ensures RunConsistent(h, m, c, calls, allowed)
    decreases |calls|
  {
    if calls != [] {
      PerformStep(h, m, c, calls[0], allowed);
      hide Perform, Value, Possible;
      var (reply, next) := Perform(h, m, c, calls[0]);
      RunSafe(h, next, c, calls[1..], Possible(allowed, calls[0], reply));
    }
  }
}
