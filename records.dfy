/**
  The mod registration record and the priority-ordered list the script
  manager keeps its records in. Records are values: the manager replaces an
  element of its list where the C++ code assigns a field of the struct in
  its vector.
 */
module ModRecords {
  import opened HostInterface

  /** The signed 64-bit priority a mod is registered with. */
  newtype int64 = x: int | -0x8000_0000_0000_0000 <= x < 0x8000_0000_0000_0000

  /**
    A live script as the manager sees it: the engine's instance and the
    enabled state the manager last handed to the engine for it (at creation
    or through set-enabled).
   */
  datatype Script = Script(id: nat, enabled: bool)

  /** One registered mod whose main file is a script. */
  datatype ModRecord = ModRecord(
    name: string,
    path: string,
    priority: int64,
    enabled: bool,          // fixed at registration: instantiate at commit at all?
    scriptEnabled: bool,    // the user's run-time toggle
    unsafe: bool,           // metadata bit read at commit
    script: Option<Script>, // null until a successful create
    lastResult: string,     // last error logged, for de-duplication
    messageTime: nat)       // newest message timestamp already logged

  /** The record registration creates: both flags set to `enabled`, no script yet. */
  function NewRecord(name: string, path: string, priority: int64, enabled: bool): ModRecord
  {
    ModRecord(name, path, priority, enabled, enabled, false, None, "", 0)
  }

  /** Priorities never decrease along the list. */
  predicate SortedByPriority(mods: seq<ModRecord>)
  {
    forall i, j :: 0 <= i < j < |mods| ==> mods[i].priority <= mods[j].priority
  }

  /** No two records share a name. */
  predicate UniqueNames(mods: seq<ModRecord>)
  {
    forall i, j :: 0 <= i < j < |mods| ==> mods[i].name != mods[j].name
  }

  predicate HasName(mods: seq<ModRecord>, name: string)
  {
    exists i :: 0 <= i < |mods| && mods[i].name == name
  }

  /** A live script carries the enabled state its record shows. */
  predicate InSync(r: ModRecord)
  {
    r.script.Some? ==> r.script.value.enabled == r.scriptEnabled
  }

  predicate HandlesInSync(mods: seq<ModRecord>)
  {
    forall r :: r in mods ==> InSync(r)
  }

  /** `b` is registered as `a` was: same name, path, priority and enabled flag. */
  predicate SameRegistration(a: ModRecord, b: ModRecord)
  {
    a.name == b.name && a.path == b.path && a.priority == b.priority && a.enabled == b.enabled
  }

  /** Two lists hold the same registrations in the same order. */
  predicate SameLayout(a: seq<ModRecord>, b: seq<ModRecord>)
  {
    |a| == |b| && forall i :: 0 <= i < |a| ==> SameRegistration(a[i], b[i])
  }

  /**
    The position a record of priority `priority` is inserted at: the first
    record whose priority is strictly greater, so that it goes after every
    record of equal priority.
   */
  function UpperBound(mods: seq<ModRecord>, priority: int64): (k: nat)
    requires SortedByPriority(mods)
    ensures k <= |mods|
    ensures forall i :: 0 <= i < k ==> mods[i].priority <= priority
    ensures forall i :: k <= i < |mods| ==> priority < mods[i].priority
  {
    if |mods| == 0 || priority < mods[0].priority then 0
    else 1 + UpperBound(mods[1..], priority)
  }

  /** `mods` with the element at `k` taken out. */
  function Without(s: seq<ModRecord>, k: nat): seq<ModRecord>
    requires k < |s|
  {
    s[..k] + s[k + 1..]
  }

  /** Where each element of `mods` with `r` spliced in at `k` comes from. */
  lemma SplicedAt(mods: seq<ModRecord>, r: ModRecord, k: nat)
    requires k <= |mods|
    ensures var res := mods[..k] + [r] + mods[k..];
      && |res| == |mods| + 1
      && (forall i :: 0 <= i < k ==> res[i] == mods[i])
      && res[k] == r
      && (forall i :: k < i < |res| ==> res[i] == mods[i - 1])
      && Without(res, k) == mods
  {
    var res := mods[..k] + [r] + mods[k..];
    assert res[..k] == mods[..k] && res[k + 1..] == mods[k..];
    assert mods[..k] + mods[k..] == mods;
  }

  /**
    `mods` with `r` inserted at its upper bound: the list stays sorted, the
    other records keep their relative order, and `r` follows every record
    of priority at most its own and precedes every greater one.
   */
  function Inserted(mods: seq<ModRecord>, r: ModRecord): (res: seq<ModRecord>)
    requires SortedByPriority(mods)
    ensures |res| == |mods| + 1
    ensures SortedByPriority(res)
    ensures var k := UpperBound(mods, r.priority);
      k < |res| && res[k] == r && Without(res, k) == mods
    ensures forall x :: x in res <==> x in mods || x == r
  {
    var k := UpperBound(mods, r.priority);
    var res := mods[..k] + [r] + mods[k..];
    SplicedAt(mods, r, k);
    assert SortedByPriority(res) by {
      forall i, j | 0 <= i < j < |res| ensures res[i].priority <= res[j].priority {
        if j < k {
          assert res[i] == mods[i] && res[j] == mods[j];
        } else if j == k {
          assert res[i] == mods[i];
        } else if i < k {
          assert res[i] == mods[i] && res[j] == mods[j - 1];
        } else if i == k {
          assert res[j] == mods[j - 1];
        } else {
          assert res[i] == mods[i - 1] && res[j] == mods[j - 1];
        }
      }
    }
    assert forall x :: x in res <==> x in mods || x == r by {
      assert res == mods[..k] + [r] + mods[k..];
      assert mods == mods[..k] + mods[k..];
    }
    res
  }

  /** Inserting a record under a name not yet present keeps the names unique. */
  lemma InsertedKeepsNamesUnique(mods: seq<ModRecord>, r: ModRecord)
    requires SortedByPriority(mods) && UniqueNames(mods)
    requires !HasName(mods, r.name)
    ensures UniqueNames(Inserted(mods, r))
  {
    var res := Inserted(mods, r);
    var k := UpperBound(mods, r.priority);
    SplicedAt(mods, r, k);
    assert res == mods[..k] + [r] + mods[k..];
    forall i, j | 0 <= i < j < |res|
      ensures res[i].name != res[j].name
    {
      if j < k {
        assert res[i] == mods[i] && res[j] == mods[j];
      } else if j == k {
        assert res[i] == mods[i];
      } else if i < k {
        assert res[i] == mods[i] && res[j] == mods[j - 1];
      } else if i == k {
        assert res[j] == mods[j - 1];
      } else {
        assert res[i] == mods[i - 1] && res[j] == mods[j - 1];
      }
    }
  }

  /** Inserting a record with no script keeps every live script in sync. */
  lemma InsertedKeepsHandlesInSync(mods: seq<ModRecord>, r: ModRecord)
    requires SortedByPriority(mods) && HandlesInSync(mods)
    requires r.script.None?
    ensures HandlesInSync(Inserted(mods, r))
  {
  }

  /**
    Registering priorities 5, 1, 5, 10 in that order gives the ascending
    list 1, 5, 5, 10, the second 5 after the first.
   */
  lemma RegistrationOrderExample(a: ModRecord, b: ModRecord, c: ModRecord, d: ModRecord)
    requires a.priority == 5 && b.priority == 1 && c.priority == 5 && d.priority == 10
    ensures Inserted(Inserted(Inserted(Inserted([], a), b), c), d) == [b, a, c, d]
  {
    FirstRegistration(a);
    SecondRegistration(a, b);
    ThirdRegistration(b, a, c);
    FourthRegistration(b, a, c, d);
  }

  /** The first registration of the example: the list holds just that record. */
  lemma FirstRegistration(a: ModRecord)
    ensures Inserted([], a) == [a]
  {
    assert Inserted([], a) == [] + [a] + [];
  }

  /** The second registration of the example: priority 1 goes before 5. */
  lemma SecondRegistration(a: ModRecord, b: ModRecord)
    requires a.priority == 5 && b.priority == 1
    ensures SortedByPriority([a])
    ensures Inserted([a], b) == [b, a]
  {
    assert UpperBound([a], 1) == 0;
    assert Inserted([a], b) == [] + [b] + [a];
  }

  /** The third registration of the example: the second 5 goes after the first. */
  lemma ThirdRegistration(b: ModRecord, a: ModRecord, c: ModRecord)
    requires a.priority == 5 && b.priority == 1 && c.priority == 5
    ensures SortedByPriority([b, a])
    ensures Inserted([b, a], c) == [b, a, c]
  {
    assert UpperBound([b, a], 5) == 2 by {
      assert [b, a][1..] == [a] && [a][1..] == [];
      assert UpperBound([a], 5) == 1;
    }
    assert Inserted([b, a], c) == [b, a] + [c] + [];
  }

  /** The fourth registration of the example: priority 10 goes last. */
  lemma FourthRegistration(b: ModRecord, a: ModRecord, c: ModRecord, d: ModRecord)
    requires a.priority == 5 && b.priority == 1 && c.priority == 5 && d.priority == 10
    ensures SortedByPriority([b, a, c])
    ensures Inserted([b, a, c], d) == [b, a, c, d]
  {
    assert UpperBound([b, a, c], 10) == 3 by {
      assert [b, a, c][1..] == [a, c] && [a, c][1..] == [c] && [c][1..] == [];
      assert UpperBound([c], 10) == 1;
      assert UpperBound([a, c], 10) == 2;
    }
    assert Inserted([b, a, c], d) == [b, a, c] + [d] + [];
  }
}
