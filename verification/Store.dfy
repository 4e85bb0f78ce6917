/** playdate/store/store.go: the store as an object over a mutable file system. */
module Stores {
  import opened Common
  import opened Envelope
  import M = StoreModel
  import StoreChain
  import StoreSafety

  /** The runtime's file system, with the world's decisions as a constant. */
  class FileSystem {
    const host: M.Host
    var disk: M.Disk
    var step: nat

    constructor (host: M.Host, disk: M.Disk)
      ensures this.host == host && Now() == M.Machine(disk, 0)
    {
      this.host, this.disk, this.step := host, disk, 0;
    }

    function Now(): M.Machine
      reads this
    {
      M.Machine(disk, step)
    }

    method OpenWrite(p: string) returns (error: Option<M.Failure>)
      modifies this
      ensures M.Step(error, Now()) == M.OpenWrite(host, old(Now()), p)
    {
      if host.fate(step).ok && (p in disk ==> disk[p].File?) {
        disk, error := disk[p := M.File([])], None;
      } else {
        error := Some(M.Native);
      }
      step := step + 1;
    }

    method Write(p: string, data: bytes) returns (count: nat, error: Option<M.Failure>)
      requires M.IsFile(disk, p)
      modifies this
      ensures count == M.WriteCount(host, old(Now()), data)
      ensures M.Step(error, Now()) == M.Write(host, old(Now()), p, data)
    {
      count := M.WriteCount(host, Now(), data);
      error := if host.fate(step).ok then None else Some(M.Native);
      disk, step := disk[p := M.File(disk[p].data + data[..count])], step + 1;
    }

    /** Flush or Close. */
    method Settle() returns (error: Option<M.Failure>)
      modifies this
      ensures M.Step(error, Now()) == M.Settle(host, old(Now()))
    {
      error := if host.fate(step).ok then None else Some(M.Native);
      step := step + 1;
    }

    method Remove(p: string) returns (error: Option<M.Failure>)
      modifies this
      ensures M.Step(error, Now()) == M.Remove(host, old(Now()), p)
    {
      if host.fate(step).ok && p in disk {
        disk, error := disk - {p}, None;
      } else {
        error := Some(M.Native);
      }
      step := step + 1;
    }

    method Rename(from: string, to: string) returns (error: Option<M.Failure>)
      modifies this
      ensures M.Step(error, Now()) == M.Rename(host, old(Now()), from, to)
    {
      if M.RenameAllowed(host, Now(), from, to) {
        disk, error := (disk - {from})[to := disk[from]], None;
      } else {
        error := Some(M.Native);
      }
      step := step + 1;
    }

    method Stat(p: string) returns (info: Result<M.Info, M.Failure>)
      modifies this
      ensures M.Located(info, Now()) == M.StatPath(host, old(Now()), p)
    {
      info := if host.fate(step).ok && p in disk then Ok(M.InfoOf(disk[p])) else Err(M.Native);
      step := step + 1;
    }

    method OpenRead(p: string) returns (ok: bool)
      modifies this
      ensures ok == M.OpenReadOk(host, old(Now()), p) && Now() == M.Tick(old(Now()))
    {
      ok := host.fate(step).ok && M.IsFile(disk, p);
      step := step + 1;
    }

    /** One Read at `offset` into a buffer of `asked` bytes: the bytes and the error, if any. */
    method Read(p: string, offset: nat, asked: nat) returns (chunk: bytes, failed: bool, native: bool)
      requires M.IsFile(disk, p) && offset <= |disk[p].data|
      modifies this
      ensures Now() == M.Tick(old(Now()))
      ensures var count := M.ReadCount(host, old(Now()), p, offset, asked);
              chunk == disk[p].data[offset..offset + count]
      ensures failed == !host.fate(old(step)).ok && native == (failed && host.fate(old(step)).native)
    {
      var count := M.ReadCount(host, Now(), p, offset, asked);
      chunk := disk[p].data[offset..offset + count];
      failed := !host.fate(step).ok;
      native := failed && host.fate(step).native;
      step := step + 1;
    }
  }

  class Store {
    const files: FileSystem
    const config: M.Config

    constructor (files: FileSystem, config: M.Config)
      ensures this.files == files && this.config == config
    {
      this.files, this.config := files, config;
    }

    /** New rejects exactly the invalid configurations; `pathValid` is the verdict on the path. */
    static method New(files: FileSystem, config: M.Config, pathValid: bool) returns (r: Option<Store>)
      ensures r.Some? <==> pathValid && M.ValidConfig(config)
      ensures r.Some? ==> r.value.files == files && r.value.config == config
    {
      if !pathValid || config.version == 0 || config.maximumSize == 0 || config.maximumSize > M.MAXIMUM_STORE_SIZE {
        return None;
      }
      for index := 0 to |config.migrations|
        invariant M.ValidMigrations(config, index)
      {
        var from := config.migrations[index].from;
        if from == 0 || from >= config.version {
          return None;
        }
        for previous := 0 to index
          invariant forall j :: 0 <= j < previous ==> config.migrations[j].from != from
        {
          if config.migrations[previous].from == from {
            return None;
          }
        }
      }
      var store := new Store(files, config);
      r := Some(store);
    }

    /** Lines 86 to 94. */
    method WriteAll(encoded: bytes) returns (error: Option<M.Failure>)
      requires M.IsFile(files.disk, config.Temporary())
      modifies files
      ensures M.Step(error, files.Now()) == M.WriteFrom(files.host, old(files.Now()), config.Temporary(), encoded, 0)
    {
      var written := 0;
      error := None;
      while written < |encoded| && error.None?
        invariant written <= |encoded| && (error.None? ==> M.IsFile(files.disk, config.Temporary()))
        invariant M.WriteFrom(files.host, old(files.Now()), config.Temporary(), encoded, 0) ==
                  (if error.None? then M.WriteFrom(files.host, files.Now(), config.Temporary(), encoded, written)
                   else M.Step(error, files.Now()))
        decreases error.None?, |encoded| - written
      {
        var count;
        count, error := files.Write(config.Temporary(), encoded[written..]);
        written := written + count;
        if error.None? && count == 0 {
          error := Some(M.ShortWrite);
        }
      }
    }

    /** Lines 82 to 103. */
    method WriteTemporary(encoded: bytes) returns (error: Option<M.Failure>)
      modifies files
      ensures M.Step(error, files.Now()) == M.WriteTemporary(files.host, old(files.Now()), config.Temporary(), encoded)
    {
      error := files.OpenWrite(config.Temporary());
      if error.Some? {
        return;
      }
      error := WriteAll(encoded);
      hide M.WriteFrom;
      if error.None? {
        error := files.Settle();
      }
      var closeError := files.Settle();
      if error.None? {
        error := closeError;
      }
    }

    /** Lines 104 to 117. */
    method Publish() returns (error: Option<M.Failure>)
      modifies files
      ensures M.Step(error, files.Now()) == M.Publish(files.host, old(files.Now()), config)
    {
      hide M.Rename, M.Remove;
      error := files.Rename(config.Temporary(), config.path);
      var ignored;
      if error.None? {
        ignored := files.Remove(config.Backup());
        return;
      }
      ignored := files.Remove(config.Backup());
      error := files.Rename(config.path, config.Backup());
      if error.Some? {
        return;
      }
      error := files.Rename(config.Temporary(), config.path);
      if error.Some? {
        ignored := files.Rename(config.Backup(), config.path);
        return;
      }
      ignored := files.Remove(config.Backup());
    }

    method Save(payload: bytes) returns (error: Option<M.Failure>)
      requires M.ValidConfig(config)
      modifies files
      ensures M.Step(error, files.Now()) == M.Save(files.host, old(files.Now()), config, payload)
    {
      hide M.WriteTemporary, M.Publish, Encode;
      if |payload| > config.maximumSize {
        return Some(M.TooLarge);
      }
      error := WriteTemporary(Encode(config.version, payload));
      if error.None? {
        error := Publish();
      }
    }

    /** Lines 123 to 136. */
    method Locate() returns (info: Result<M.Info, M.Failure>)
      modifies files
      ensures M.Located(info, files.Now()) == M.Locate(files.host, old(files.Now()), config)
    {
      hide M.Rename, M.StatPath;
      info := files.Stat(config.path);
      if info.Err? {
        var backup := files.Stat(config.Backup());
        if backup.Err? {
          return backup;
        }
        var error := files.Rename(config.Backup(), config.path);
        if error.Some? {
          return Err(M.Native);
        }
        info := files.Stat(config.path);
      }
    }

    /** Lines 144 to 153: fills a buffer of `size` bytes; `data` is what was read. */
    method ReadAll(size: nat) returns (data: bytes, failed: bool, native: bool)
      requires M.IsFile(files.disk, config.path) && size == |files.disk[config.path].data|
      modifies files
      ensures M.ReadEnd(|data|, failed, native, files.Now()) == M.ReadFrom(files.host, old(files.Now()), config.path, size, 0)
      ensures files.disk == old(files.disk) && data == files.disk[config.path].data[..|data|]
    {
      data, failed, native := [], false, false;
      while |data| < size && !failed
        invariant files.disk == old(files.disk)
        invariant |data| <= size && data == files.disk[config.path].data[..|data|]
        invariant !failed ==> !native
        invariant M.ReadFrom(files.host, old(files.Now()), config.path, size, 0) ==
                  (if failed then M.ReadEnd(|data|, failed, native, files.Now())
                   else M.ReadFrom(files.host, files.Now(), config.path, size, |data|))
        decreases !failed, size - |data|
      {
        var chunk;
        chunk, failed, native := files.Read(config.path, |data|, size - |data|);
        data := data + chunk;
        if chunk == [] && !failed {
          failed, native := true, false;
        }
      }
    }

    /** Lines 137 to 166. */
    method ReadValue(info: M.Info) returns (result: Result<bytes, M.Failure>)
      requires config.path in files.disk && info == M.InfoOf(files.disk[config.path])
      modifies files
      ensures M.Loaded(result, files.Now()) == M.ReadValue(files.host, old(files.Now()), config, info)
    {
      if info.isDir || info.size < HEADER_SIZE || info.size > config.maximumSize + HEADER_SIZE {
        return Err(M.Corrupt);
      }
      var ok := files.OpenRead(config.path);
      if !ok {
        return Err(M.Native);
      }
      var data, failed, native := ReadAll(info.size);
      hide M.ReadFrom;
      assert |data| == info.size ==> data == files.disk[config.path].data;
      var closeError := files.Settle();
      if failed && |data| < info.size {
        return Err(if native then M.Native else M.Corrupt);
      }
      result := if closeError.Some? then Err(M.Native) else Ok(data);
    }

    /** Lines 179 to 188. */
    method FindMigration(version: uint32) returns (migration: Option<M.Migration>)
      ensures migration == M.FindMigration(config.migrations, version)
    {
      assert config.migrations[0..] == config.migrations;
      for i := 0 to |config.migrations|
        invariant M.FindMigration(config.migrations[i..], version) == M.FindMigration(config.migrations, version)
      {
        assert config.migrations[i..][1..] == config.migrations[i + 1..];
        if config.migrations[i].from == version {
          return Some(config.migrations[i]);
        }
      }
      migration := None;
    }

    /** Lines 178 to 197. */
    method Upgrade(from: uint32, payload: bytes) returns (result: Result<bytes, M.Failure>)
      requires from <= config.version
      ensures result == M.Upgrade(config, from, payload)
      ensures StoreChain.Migrates(config, from, payload, result)
    {
      StoreChain.UpgradeMigrates(config, from, payload);
      hide StoreChain.Migrates;
      var version, current := from, payload;
      while version < config.version
        invariant version <= config.version
        invariant M.Upgrade(config, version, current) == M.Upgrade(config, from, payload)
      {
        var migration := FindMigration(version);
        if migration.None? {
          return Err(M.NoMigration);
        }
        var next := migration.value.migrate(current);
        if next.None? {
          return Err(M.MigrationFailed);
        }
        if |next.value| > config.maximumSize {
          return Err(M.MigrationTooLarge);
        }
        version, current := version + 1, next.value;
      }
      result := Ok(current);
    }

    /** Lines 171 to 201. */
    method Deliver(version: uint32, payload: bytes) returns (result: Result<bytes, M.Failure>)
      requires M.ValidConfig(config)
      modifies files
      ensures M.Loaded(result, files.Now()) == M.Deliver(files.host, old(files.Now()), config, version, payload)
    {
      hide M.Save, M.Upgrade, M.Remove;
      if version > config.version {
        return Err(M.FutureVersion);
      }
      if version == config.version {
        var ignored := files.Remove(config.Backup());
        return Ok(payload);
      }
      result := Upgrade(version, payload);
      if result.Ok? {
        var error := Save(result.value);
        if error.Some? {
          result := Err(error.value);
        }
      }
    }

    method Load() returns (result: Result<bytes, M.Failure>)
      requires M.ValidConfig(config)
      modifies files
      ensures M.Loaded(result, files.Now()) == M.Load(files.host, old(files.Now()), config)
      ensures result.Ok? ==>
                var seen := StoreSafety.Seen(files.host, old(files.Now()), config);
                seen.Some? && StoreChain.StandsFor(seen.value, config, result)
    {
      StoreSafety.LoadValue(files.host, files.Now(), config);
      hide StoreChain.StandsFor, StoreSafety.Seen;
      hide M.Locate, M.ReadValue, M.Deliver, Decode;
      M.LocatedPresent(files.host, files.Now(), config);
      var info := Locate();
      if info.Err? {
        return Err(info.error);
      }
      result := ReadValue(info.value);
      if result.Ok? {
        var decoded := Decode(result.value, config.maximumSize);
        if decoded.None? {
          return Err(M.Corrupt);
        }
        result := Deliver(decoded.value.0, decoded.value.1);
      }
    }
  }
}
