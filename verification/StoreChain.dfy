/**
 * What migrating a stored payload means, as a relation between the file and
 * the result: a chain of payloads, one for each version, in which every link
 * is what the configured migration from that version returns.
 */
module StoreChain {
  import opened Common
  import opened Envelope
  import opened StoreModel

  /** The migration from this version turns `p` into `q`, and `q` fits. */
  ghost predicate Link(c: Config, version: nat, p: bytes, q: bytes)
  {
    |q| <= c.maximumSize && exists k :: 0 <= k < |c.migrations| && LinkBy(c.migrations[k], version, p, q)
  }

  predicate LinkBy(m: Migration, version: nat, p: bytes, q: bytes)
  {
    m.from == version && m.migrate(p) == Some(q)
  }

  /** Why there is no link from `p`: no such migration, or it fails, or its result is too large. */
  ghost predicate Broken(c: Config, version: nat, p: bytes, error: Failure)
  {
    match error
    case NoMigration => forall k :: 0 <= k < |c.migrations| ==> c.migrations[k].from != version
    case MigrationFailed => exists k :: 0 <= k < |c.migrations| && FailsBy(c.migrations[k], version, p)
    case MigrationTooLarge => exists k, q: bytes :: 0 <= k < |c.migrations| && LinkBy(c.migrations[k], version, p, q) && |q| > c.maximumSize
    case _ => false
  }

  predicate FailsBy(m: Migration, version: nat, p: bytes)
  {
    m.from == version && m.migrate(p).None?
  }

  /** Payloads of consecutive versions, each the migration of the one before. */
  ghost predicate Chain(c: Config, version: nat, payloads: seq<bytes>)
  {
    payloads != [] && forall i :: 0 <= i < |payloads| - 1 ==> Link(c, version + i, payloads[i], payloads[i + 1])
  }

  /** The chain from this payload reaches the current version, or breaks at its last payload. */
  ghost predicate Reaches(c: Config, version: nat, payload: bytes, result: Result<bytes, Failure>, payloads: seq<bytes>)
  {
    && Chain(c, version, payloads) && payloads[0] == payload
    && match result
       case Ok(last) => version + |payloads| - 1 == c.version && payloads[|payloads| - 1] == last
       case Err(error) => version + |payloads| - 1 < c.version && Broken(c, version + |payloads| - 1, payloads[|payloads| - 1], error)
  }

  ghost predicate Migrates(c: Config, version: nat, payload: bytes, result: Result<bytes, Failure>)
  {
    exists payloads :: Reaches(c, version, payload, result, payloads)
  }

  /** The result of reading a file: its envelope's payload, migrated to the current version. */
  ghost predicate StandsFor(n: Node, c: Config, result: Result<bytes, Failure>)
  {
    if IsEnvelope(n, c) then
      exists version: uint32, payload: bytes :: Contains(n, c, version, payload) &&
        if version > c.version then result == Err(FutureVersion) else Migrates(c, version, payload, result)
    else result == Err(Corrupt)
  }

  ghost predicate IsEnvelope(n: Node, c: Config)
  {
    exists version: uint32, payload: bytes :: Contains(n, c, version, payload)
  }

  /** The file is the envelope of a payload that fits, under a version that is not zero. */
  ghost predicate Contains(n: Node, c: Config, version: uint32, payload: bytes)
  {
    n.File? && version != 0 && |payload| <= c.maximumSize && n.data == Encode(version, payload)
  }

  // ------------------------------------------------------------------ one link

  lemma {:induction false} FoundMigration(migrations: seq<Migration>, version: uint32)
    ensures match FindMigration(migrations, version)
            case Some(m) => m in migrations && m.from == version
            case None => forall k :: 0 <= k < |migrations| ==> migrations[k].from != version
  {
    if migrations != [] {
      FoundMigration(migrations[1..], version);
      assert migrations == [migrations[0]] + migrations[1..];
    }
  }

  /** One round of the loop makes the next link or finds the reason why there is none. */
  lemma RoundLinks(c: Config, version: uint32, payload: bytes)
    ensures match MigrateOnce(c, version, payload)
            case Ok(next) => Link(c, version, payload, next)
            case Err(error) => Broken(c, version, payload, error)
  {
    FoundMigration(c.migrations, version);
    var migration := FindMigration(c.migrations, version);
    if migration.Some? {
      var k :| 0 <= k < |c.migrations| && c.migrations[k] == migration.value;
      var next := migration.value.migrate(payload);
      if next.Some? {
        assert LinkBy(c.migrations[k], version, payload, next.value);
      } else {
        assert FailsBy(c.migrations[k], version, payload);
      }
    }
  }

  /** A version has one migration, so a payload one fate. */
  lemma OneLink(c: Config, version: nat, p: bytes, q: bytes, r: bytes)
    requires ValidConfig(c) && Link(c, version, p, q) && Link(c, version, p, r)
    ensures q == r
  {
    var i :| 0 <= i < |c.migrations| && LinkBy(c.migrations[i], version, p, q);
    var j :| 0 <= j < |c.migrations| && LinkBy(c.migrations[j], version, p, r);
    assert i == j;
  }

  /** The configured migrations have different source versions. */
  lemma OneIndex(c: Config, i: nat)
    requires ValidConfig(c) && i < |c.migrations|
    ensures forall j :: 0 <= j < |c.migrations| && c.migrations[j].from == c.migrations[i].from ==> j == i
  {
  }

  lemma LinkedNotBroken(c: Config, version: nat, p: bytes, q: bytes, error: Failure)
    requires ValidConfig(c) && Link(c, version, p, q)
    ensures !Broken(c, version, p, error)
  {
    var i :| 0 <= i < |c.migrations| && LinkBy(c.migrations[i], version, p, q);
    OneIndex(c, i);
    hide ValidConfig;
  }

  lemma OneReason(c: Config, version: nat, p: bytes, a: Failure, b: Failure)
    requires ValidConfig(c) && Broken(c, version, p, a) && Broken(c, version, p, b)
    ensures a == b
  {
    FailingHasOneReason(c, version, p);
    hide ValidConfig;
  }

  lemma FailingHasOneReason(c: Config, version: nat, p: bytes)
    requires ValidConfig(c)
    ensures !(Broken(c, version, p, MigrationFailed) && Broken(c, version, p, MigrationTooLarge))
  {
    if Broken(c, version, p, MigrationFailed) {
      var i :| 0 <= i < |c.migrations| && FailsBy(c.migrations[i], version, p);
      OneIndex(c, i);
      hide ValidConfig;
    }
  }

  // ----------------------------------------------------------------- the chain

  /** The loop follows the chain. */
  lemma {:induction false} UpgradeMigrates(c: Config, version: uint32, payload: bytes)
    requires version <= c.version
    ensures Migrates(c, version, payload, Upgrade(c, version, payload))
    decreases c.version - version
  {
    RoundLinks(c, version, payload);
    hide Link, Broken;
    var result := Upgrade(c, version, payload);
    if version == c.version {
      assert Reaches(c, version, payload, result, [payload]);
    } else {
      var next := MigrateOnce(c, version, payload);
      hide MigrateOnce;
      if next.Ok? {
        UpgradeMigrates(c, version + 1, next.value);
        var rest :| Reaches(c, version + 1, next.value, result, rest);
        ChainPrepend(c, version, payload, result, rest);
      } else {
        assert Reaches(c, version, payload, result, [payload]);
      }
    }
  }

  lemma ChainPrepend(c: Config, version: uint32, payload: bytes, result: Result<bytes, Failure>, rest: seq<bytes>)
    requires version < c.version && rest != [] && Reaches(c, version + 1, rest[0], result, rest) && Link(c, version, payload, rest[0])
    ensures Migrates(c, version, payload, result)
  {
    var all := [payload] + rest;
    hide Link, Broken;
    forall i | 0 <= i < |all| - 1 ensures Link(c, version + i, all[i], all[i + 1]) {
      if i > 0 {
        assert Link(c, version + 1 + (i - 1), rest[i - 1], rest[i]);
      }
    }
    assert Reaches(c, version, payload, result, all);
  }

  /** A payload's chain is determined as far as it goes. */
  lemma {:induction false} SameChain(c: Config, version: nat, a: seq<bytes>, b: seq<bytes>, i: nat)
    requires ValidConfig(c) && Chain(c, version, a) && Chain(c, version, b) && a[0] == b[0] && i < |a| && i < |b|
    ensures a[i] == b[i]
  {
    if i > 0 {
      SameChain(c, version, a, b, i - 1);
      hide Link;
      assert Link(c, version + (i - 1), a[i - 1], a[i]) && Link(c, version + (i - 1), b[i - 1], b[i]);
      OneLink(c, version + (i - 1), a[i - 1], a[i], b[i]);
    }
  }

  /** Migrating has one result. */
  lemma OneResult(c: Config, version: nat, payload: bytes, a: Result<bytes, Failure>, b: Result<bytes, Failure>)
    requires ValidConfig(c) && Migrates(c, version, payload, a) && Migrates(c, version, payload, b)
    ensures a == b
  {
    hide Link, Broken, ValidConfig;
    var p :| Reaches(c, version, payload, a, p);
    var q :| Reaches(c, version, payload, b, q);
    OneEnd(c, version, payload, a, b, p, q);
    OneEnd(c, version, payload, b, a, q, p);
    SameChain(c, version, p, q, |p| - 1);
    if a.Err? {
      OneReason(c, version + |p| - 1, p[|p| - 1], a.error, b.error);
    }
  }

  /** A chain that ends cannot be shorter than another one. */
  lemma OneEnd(c: Config, version: nat, payload: bytes, a: Result<bytes, Failure>, b: Result<bytes, Failure>, p: seq<bytes>, q: seq<bytes>)
    requires ValidConfig(c) && Reaches(c, version, payload, a, p) && Reaches(c, version, payload, b, q)
    ensures |p| >= |q|
    ensures |p| == |q| ==> (a.Ok? <==> b.Ok?)
  {
    hide Link, Broken, ValidConfig;
    if |p| < |q| {
      var i := |p| - 1;
      SameChain(c, version, p, q, i);
      assert Link(c, version + i, q[i], q[i + 1]);
      if a.Err? {
        LinkedNotBroken(c, version + i, p[i], q[i + 1], a.error);
      }
    }
  }

  /** The loop computes exactly the result of the chain. */
  lemma UpgradeExactly(c: Config, version: uint32, payload: bytes, result: Result<bytes, Failure>)
    requires ValidConfig(c) && version <= c.version
    ensures Upgrade(c, version, payload) == result <==> Migrates(c, version, payload, result)
  {
    UpgradeMigrates(c, version, payload);
    hide Migrates, Upgrade;
    if Migrates(c, version, payload, result) {
      OneResult(c, version, payload, result, Upgrade(c, version, payload));
    }
  }
}
