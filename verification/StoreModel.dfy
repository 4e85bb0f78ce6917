/**
 * The save protocol of playdate/store/store.go over a file system whose every
 * operation may fail. A crash is a suffix of failing operations: whatever the
 * program does afterwards leaves the disk alone.
 */
module StoreModel {
  import opened Common
  import opened Envelope

  const MAXIMUM_STORE_SIZE: nat := 16 * 1024 * 1024

  datatype Node = File(data: bytes) | Dir

  type Disk = map<string, Node>

  /**
   * What the outside world decides about one operation: whether it succeeds,
   * how many bytes a read or write moves, and whether a failure is one of the
   * runtime's own file errors.
   */
  datatype Fate = Fate(ok: bool, count: nat, native: bool)

  /** `overwrites` says whether Rename replaces an existing file or refuses. */
  datatype Host = Host(overwrites: bool, fate: nat -> Fate)

  /** The disk and the number of operations performed so far. */
  datatype Machine = Machine(disk: Disk, step: nat)

  datatype Failure = Native | ShortWrite | TooLarge | Corrupt | FutureVersion | NoMigration | MigrationFailed | MigrationTooLarge

  datatype Step = Step(error: Option<Failure>, machine: Machine)

  datatype Info = Info(isDir: bool, size: nat)

  datatype Loaded = Loaded(result: Result<bytes, Failure>, machine: Machine)

  datatype Migration = Migration(from: uint32, migrate: bytes -> Option<bytes>)

  datatype Config = Config(path: string, version: uint32, maximumSize: uint32, migrations: seq<Migration>)
  {
    function Temporary(): string { path + ".tmp" }
    function Backup(): string { path + ".bak" }
  }

  ghost predicate ValidMigrations(c: Config, upTo: nat)
  {
    && upTo <= |c.migrations|
    && (forall i :: 0 <= i < upTo ==> 0 < c.migrations[i].from < c.version)
    && (forall i, j :: 0 <= j < i < upTo ==> c.migrations[j].from != c.migrations[i].from)
  }

  ghost predicate ValidConfig(c: Config)
  {
    c.version != 0 && 0 < c.maximumSize <= MAXIMUM_STORE_SIZE && ValidMigrations(c, |c.migrations|)
  }

  lemma NamesDiffer(c: Config)
    ensures c.path != c.Temporary() && c.path != c.Backup() && c.Temporary() != c.Backup()
  {
    assert c.Temporary()[|c.path| + 1] == 't';
    assert c.Backup()[|c.path| + 1] == 'b';
  }

  // --------------------------------------------------------- file operations

  function IsFile(disk: Disk, p: string): bool
  {
    p in disk && disk[p].File?
  }

  function Min(a: nat, b: nat): nat
  {
    if a < b then a else b
  }

  function OpenWrite(h: Host, m: Machine, p: string): (r: Step)
    ensures r.error.None? ==> r.machine.disk == m.disk[p := File([])]
    ensures r.error.Some? ==> r.machine.disk == m.disk
    ensures r.machine.step == m.step + 1
  {
    if h.fate(m.step).ok && (p in m.disk ==> m.disk[p].File?)
    then Step(None, Machine(m.disk[p := File([])], m.step + 1))
    else Step(Some(Native), Machine(m.disk, m.step + 1))
  }

  function WriteCount(h: Host, m: Machine, data: bytes): (count: nat)
    ensures count <= |data|
  {
    Min(h.fate(m.step).count, |data|)
  }

  /** Appends the bytes the world accepts, even when it then reports a failure. */
  function Write(h: Host, m: Machine, p: string, data: bytes): (r: Step)
    requires IsFile(m.disk, p)
  {
    var disk := m.disk[p := File(m.disk[p].data + data[..WriteCount(h, m, data)])];
    Step(if h.fate(m.step).ok then None else Some(Native), Machine(disk, m.step + 1))
  }

  /** Flush and Close: no effect on the contents. */
  function Settle(h: Host, m: Machine): Step
  {
    Step(if h.fate(m.step).ok then None else Some(Native), Machine(m.disk, m.step + 1))
  }

  function Remove(h: Host, m: Machine, p: string): Step
  {
    if h.fate(m.step).ok && p in m.disk
    then Step(None, Machine(m.disk - {p}, m.step + 1))
    else Step(Some(Native), Machine(m.disk, m.step + 1))
  }

  predicate RenameAllowed(h: Host, m: Machine, from: string, to: string)
  {
    h.fate(m.step).ok && from in m.disk && (to in m.disk ==> h.overwrites && m.disk[to].File?)
  }

  function Rename(h: Host, m: Machine, from: string, to: string): Step
  {
    if RenameAllowed(h, m, from, to)
    then Step(None, Machine((m.disk - {from})[to := m.disk[from]], m.step + 1))
    else Step(Some(Native), Machine(m.disk, m.step + 1))
  }

  /** Stat and OpenFile for reading leave the disk alone. */
  function StatOk(h: Host, m: Machine, p: string): bool
  {
    h.fate(m.step).ok && p in m.disk
  }

  function InfoOf(n: Node): Info
  {
    if n.Dir? then Info(true, 0) else Info(false, |n.data|)
  }

  function OpenReadOk(h: Host, m: Machine, p: string): bool
  {
    h.fate(m.step).ok && IsFile(m.disk, p)
  }

  function Tick(m: Machine): Machine
  {
    Machine(m.disk, m.step + 1)
  }

  /** How many bytes one Read at `offset` delivers into a buffer of `asked` bytes. */
  function ReadCount(h: Host, m: Machine, p: string, offset: nat, asked: nat): (count: nat)
    requires IsFile(m.disk, p) && offset <= |m.disk[p].data|
    ensures count <= asked && offset + count <= |m.disk[p].data|
  {
    Min(h.fate(m.step).count, Min(asked, |m.disk[p].data| - offset))
  }

  // -------------------------------------------------------------------- Save

  function WriteFrom(h: Host, m: Machine, p: string, data: bytes, written: nat): Step
    requires IsFile(m.disk, p) && written <= |data|
    decreases |data| - written
  {
    if written == |data| then Step(None, m)
    else
      var w := Write(h, m, p, data[written..]);
      var count := WriteCount(h, m, data[written..]);
      if w.error.Some? then w
      else if count == 0 then Step(Some(ShortWrite), w.machine)
      else WriteFrom(h, w.machine, p, data, written + count)
  }

  function ThenSettle(h: Host, s: Step): Step
  {
    var t := Settle(h, s.machine);
    Step(if s.error.None? then t.error else s.error, t.machine)
  }

  function WriteTemporary(h: Host, m: Machine, p: string, data: bytes): Step
  {
    var opening := OpenWrite(h, m, p);
    if opening.error.Some? then opening
    else
      var written := WriteFrom(h, opening.machine, p, data, 0);
      var flushed := if written.error.None? then Settle(h, written.machine) else written;
      ThenSettle(h, flushed)
  }

  /** Lines 109 to 117: swap through the backup when a direct rename failed. */
  function Swap(h: Host, m: Machine, c: Config): Step
  {
    var kept := Rename(h, m, c.path, c.Backup());
    if kept.error.Some? then kept
    else
      var published := Rename(h, kept.machine, c.Temporary(), c.path);
      if published.error.Some? then Step(published.error, Rename(h, published.machine, c.Backup(), c.path).machine)
      else Step(None, Remove(h, published.machine, c.Backup()).machine)
  }

  /** Lines 104 to 117. */
  function Publish(h: Host, m: Machine, c: Config): Step
  {
    var direct := Rename(h, m, c.Temporary(), c.path);
    var removed := Remove(h, direct.machine, c.Backup()).machine;
    if direct.error.None? then Step(None, removed) else Swap(h, removed, c)
  }

  function Save(h: Host, m: Machine, c: Config, payload: bytes): Step
    requires ValidConfig(c)
  {
    if |payload| > c.maximumSize then Step(Some(TooLarge), m)
    else
      var written := WriteTemporary(h, m, c.Temporary(), Encode(c.version, payload));
      if written.error.Some? then written else Publish(h, written.machine, c)
  }

  // -------------------------------------------------------------------- Load

  datatype Located = Located(info: Result<Info, Failure>, machine: Machine)

  function StatPath(h: Host, m: Machine, p: string): Located
  {
    Located(if StatOk(h, m, p) then Ok(InfoOf(m.disk[p])) else Err(Native), Tick(m))
  }

  /** Lines 123 to 136: stat the value, restoring the backup when it is missing. */
  function Locate(h: Host, m: Machine, c: Config): Located
  {
    var first := StatPath(h, m, c.path);
    if first.info.Ok? then first
    else
      var backup := StatPath(h, first.machine, c.Backup());
      if backup.info.Err? then backup
      else
        var restored := Rename(h, backup.machine, c.Backup(), c.path);
        if restored.error.Some? then Located(Err(Native), restored.machine)
        else StatPath(h, restored.machine, c.path)
  }

  /** How a read loop over `size` bytes of a file ends. */
  datatype ReadEnd = ReadEnd(read: nat, failed: bool, native: bool, machine: Machine)

  function ReadFrom(h: Host, m: Machine, p: string, size: nat, read: nat): (r: ReadEnd)
    requires IsFile(m.disk, p) && read <= size <= |m.disk[p].data|
    ensures r.machine.disk == m.disk && r.read <= size && (r.read == size || r.failed)
    decreases size - read
  {
    if read == size then ReadEnd(read, false, false, m)
    else
      var f := h.fate(m.step);
      var count := ReadCount(h, m, p, read, size - read);
      if !f.ok then ReadEnd(read + count, true, f.native, Tick(m))
      else if count == 0 then ReadEnd(read, true, false, Tick(m))
      else ReadFrom(h, Tick(m), p, size, read + count)
  }

  /** Lines 154 to 166: a complete read forgives an error; an incomplete one reports it. */
  function Finish(h: Host, end: ReadEnd, size: nat, data: bytes): Loaded
  {
    var closed := Settle(h, end.machine);
    var result := if end.read < size then Err(if end.native then Native else Corrupt)
                  else if closed.error.Some? then Err(Native) else Ok(data);
    Loaded(result, closed.machine)
  }

  /** Lines 137 to 166: the file's bytes. */
  function ReadValue(h: Host, m: Machine, c: Config, info: Info): Loaded
    requires c.path in m.disk && info == InfoOf(m.disk[c.path])
  {
    if info.isDir || info.size < HEADER_SIZE || info.size > c.maximumSize + HEADER_SIZE then Loaded(Err(Corrupt), m)
    else if !OpenReadOk(h, m, c.path) then Loaded(Err(Native), Tick(m))
    else Finish(h, ReadFrom(h, Tick(m), c.path, info.size, 0), info.size, m.disk[c.path].data)
  }

  /** The first migration whose source version is `version`. */
  function FindMigration(migrations: seq<Migration>, version: uint32): Option<Migration>
  {
    if migrations == [] then None
    else if migrations[0].from == version then Some(migrations[0])
    else FindMigration(migrations[1..], version)
  }

  /** One round of the loop of lines 178 to 197. */
  function MigrateOnce(c: Config, version: uint32, payload: bytes): Result<bytes, Failure>
  {
    var migration := FindMigration(c.migrations, version);
    if migration.None? then Err(NoMigration)
    else
      var next := migration.value.migrate(payload);
      if next.None? then Err(MigrationFailed)
      else if |next.value| > c.maximumSize then Err(MigrationTooLarge)
      else Ok(next.value)
  }

  function Upgrade(c: Config, version: uint32, payload: bytes): Result<bytes, Failure>
    requires version <= c.version
    decreases c.version - version
  {
    if version == c.version then Ok(payload)
    else
      var next := MigrateOnce(c, version, payload);
      if next.Err? then next else Upgrade(c, version + 1, next.value)
  }

  /** Lines 171 to 201. */
  function Deliver(h: Host, m: Machine, c: Config, version: uint32, payload: bytes): Loaded
    requires ValidConfig(c)
  {
    if version > c.version then Loaded(Err(FutureVersion), m)
    else if version == c.version then Loaded(Ok(payload), Remove(h, m, c.Backup()).machine)
    else
      var upgraded := Upgrade(c, version, payload);
      if upgraded.Err? then Loaded(upgraded, m)
      else
        var saved := Save(h, m, c, upgraded.value);
        Loaded(if saved.error.Some? then Err(saved.error.value) else upgraded, saved.machine)
  }

  function Load(h: Host, m: Machine, c: Config): Loaded
    requires ValidConfig(c)
  {
    var located := Locate(h, m, c);
    if located.info.Err? then Loaded(Err(located.info.error), located.machine)
    else
      LocatedPresent(h, m, c);
      var encoded := ReadValue(h, located.machine, c, located.info.value);
      if encoded.result.Err? then encoded
      else
        var decoded := Decode(encoded.result.value, c.maximumSize);
        if decoded.None? then Loaded(Err(Corrupt), encoded.machine)
        else Deliver(h, encoded.machine, c, decoded.value.0, decoded.value.1)
  }

  lemma LocatedPresent(h: Host, m: Machine, c: Config)
    ensures var located := Locate(h, m, c);
            located.info.Ok? ==> c.path in located.machine.disk && located.info.value == InfoOf(located.machine.disk[c.path])
  {
  }
}
