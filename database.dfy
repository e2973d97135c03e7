/**
  * The single database handle and the rules its schema enforces:
  * primary keys and UNIQUE columns (no two rows share them), the foreign
  * keys of studies and milestones (enforced, since foreign_keys is ON),
  * ON DELETE CASCADE from programs to studies and milestones, and ON DELETE
  * SET NULL from studies to milestones. The CHECK constraints on enumerated
  * columns are carried by the datatypes of module Types.
  *
  * Tables are sequences of rows in insertion order. Every statement that
  * would break a constraint is refused and leaves the tables as they were.
  */
module Database {
  import opened Common
  import opened Types

  // Key columns
  function UserId(u: User): string { u.id }
  function Username(u: User): string { u.username }
  function ProgramId(p: Program): string { p.id }
  function ProgramCode(p: Program): string { p.code }
  function StudyId(s: Study): string { s.id }
  function ProtocolNumber(s: Study): string { s.protocolNumber }
  function MilestoneId(m: Milestone): string { m.id }

  // ---------------------------------------------------------------------
  // Integrity rules of the schema
  // ---------------------------------------------------------------------

  /** users.id PRIMARY KEY, users.username UNIQUE */
  ghost predicate UsersOk(us: seq<User>)
  {
    UniqueKey(us, UserId) && UniqueKey(us, Username)
  }

  /** programs.id PRIMARY KEY, programs.code UNIQUE */
  ghost predicate ProgramsOk(ps: seq<Program>)
  {
    UniqueKey(ps, ProgramId) && UniqueKey(ps, ProgramCode)
  }

  /** studies.id PRIMARY KEY, protocol_number UNIQUE, program_id REFERENCES programs(id) */
  ghost predicate StudiesOk(ss: seq<Study>, ps: seq<Program>)
  {
    && UniqueKey(ss, StudyId)
    && UniqueKey(ss, ProtocolNumber)
    && forall i :: 0 <= i < |ss| ==> ss[i].programId in KeySet(ps, ProgramId)
  }

  /** milestones.id PRIMARY KEY, program_id REFERENCES programs(id), study_id REFERENCES studies(id) or NULL */
  ghost predicate MilestonesOk(ms: seq<Milestone>, ps: seq<Program>, ss: seq<Study>)
  {
    && UniqueKey(ms, MilestoneId)
    && forall i :: 0 <= i < |ms| ==>
         && ms[i].programId in KeySet(ps, ProgramId)
         && (ms[i].studyId.Some? ==> ms[i].studyId.value in KeySet(ss, StudyId))
  }

  ghost predicate Consistent(us: seq<User>, ps: seq<Program>, ss: seq<Study>, ms: seq<Milestone>)
  {
    UsersOk(us) && ProgramsOk(ps) && StudiesOk(ss, ps) && MilestonesOk(ms, ps, ss)
  }

  // ---------------------------------------------------------------------
  // Lookups by key (SELECT ... WHERE key = ?)
  // ---------------------------------------------------------------------

  function FindProgram(ps: seq<Program>, id: string): (r: Option<Program>)
    ensures r.None? <==> id !in KeySet(ps, ProgramId)
    ensures r.Some? ==> r.value in ps && r.value.id == id
  {
    var i := IndexOf(ps, ProgramId, id);
    if i.Some? then Some(ps[i.value]) else None
  }

  function FindStudy(ss: seq<Study>, id: string): (r: Option<Study>)
    ensures r.None? <==> id !in KeySet(ss, StudyId)
    ensures r.Some? ==> r.value in ss && r.value.id == id
  {
    var i := IndexOf(ss, StudyId, id);
    if i.Some? then Some(ss[i.value]) else None
  }

  function FindMilestone(ms: seq<Milestone>, id: string): (r: Option<Milestone>)
    ensures r.None? <==> id !in KeySet(ms, MilestoneId)
    ensures r.Some? ==> r.value in ms && r.value.id == id
  {
    var i := IndexOf(ms, MilestoneId, id);
    if i.Some? then Some(ms[i.value]) else None
  }

  // ---------------------------------------------------------------------
  // Deletes and what the foreign-key actions do to the other tables
  // ---------------------------------------------------------------------

  /** ON DELETE SET NULL: a milestone that pointed at a removed study keeps existing, unattached. */
  function Detach(m: Milestone, gone: set<string>): Milestone
  {
    if m.studyId.Some? && m.studyId.value in gone then m.(studyId := None) else m
  }

  function DetachAll(ms: seq<Milestone>, gone: set<string>): (r: seq<Milestone>)
    ensures |r| == |ms|
    ensures forall i :: 0 <= i < |ms| ==> r[i] == Detach(ms[i], gone)
  {
    seq(|ms|, i requires 0 <= i < |ms| => Detach(ms[i], gone))
  }

  function ProgramsWithout(ps: seq<Program>, id: string): seq<Program>
  {
    Filter(ps, (p: Program) => p.id != id)
  }

  function StudiesWithout(ss: seq<Study>, id: string): seq<Study>
  {
    Filter(ss, (s: Study) => s.id != id)
  }

  function MilestonesWithout(ms: seq<Milestone>, id: string): seq<Milestone>
  {
    Filter(ms, (m: Milestone) => m.id != id)
  }

  /** ON DELETE CASCADE from programs: the studies that survive. */
  function StudiesOutsideProgram(ss: seq<Study>, pid: string): seq<Study>
  {
    Filter(ss, (s: Study) => s.programId != pid)
  }

  /** The ids of the studies that a program's deletion removes. */
  function StudyIdsOfProgram(ss: seq<Study>, pid: string): set<string>
  {
    set s | s in ss && s.programId == pid :: s.id
  }

  /** ON DELETE CASCADE from programs to milestones, then SET NULL for the cascaded studies. */
  function MilestonesAfterProgramDelete(ms: seq<Milestone>, ss: seq<Study>, pid: string): seq<Milestone>
  {
    DetachAll(Filter(ms, (m: Milestone) => m.programId != pid), StudyIdsOfProgram(ss, pid))
  }

  /** Deleting a program leaves no study or milestone of it, and no milestone pointing at a removed study. */
  lemma ProgramDeleteCascades(ss: seq<Study>, ms: seq<Milestone>, pid: string)
    ensures forall s :: s in StudiesOutsideProgram(ss, pid) <==> s in ss && s.programId != pid
    ensures forall m :: m in MilestonesAfterProgramDelete(ms, ss, pid) ==>
              m.programId != pid && (m.studyId.Some? ==> m.studyId.value !in StudyIdsOfProgram(ss, pid))
    ensures |MilestonesAfterProgramDelete(ms, ss, pid)| == |Filter(ms, (m: Milestone) => m.programId != pid)|
  {
    var kept := Filter(ms, (m: Milestone) => m.programId != pid);
    var r := MilestonesAfterProgramDelete(ms, ss, pid);
    forall m | m in r
      ensures m.programId != pid && (m.studyId.Some? ==> m.studyId.value !in StudyIdsOfProgram(ss, pid))
    {
      var i :| 0 <= i < |r| && r[i] == m;
      assert kept[i] in kept;
    }
  }

  /** Deleting a study keeps every milestone, detaching exactly those that pointed at it. */
  lemma StudyDeleteSetsNull(ms: seq<Milestone>, id: string, i: nat)
    requires i < |ms|
    ensures DetachAll(ms, {id})[i].studyId == (if ms[i].studyId == Some(id) then None else ms[i].studyId)
    ensures DetachAll(ms, {id})[i] == ms[i].(studyId := DetachAll(ms, {id})[i].studyId)
  {
  }

  // ---------------------------------------------------------------------
  // Helper facts about keys
  // ---------------------------------------------------------------------

  lemma KeptKeyStays<T(!new), K>(s: seq<T>, keep: T -> bool, key: T -> K, i: nat)
    requires i < |s| && keep(s[i])
    ensures key(s[i]) in KeySet(Filter(s, keep), key)
  {
    var r := Filter(s, keep);
    assert s[i] in r;
    var j :| 0 <= j < |r| && r[j] == s[i];
  }

  lemma FilteredRowCameFrom<T(!new)>(s: seq<T>, keep: T -> bool, i: nat) returns (j: nat)
    requires i < |Filter(s, keep)|
    ensures j < |s| && s[j] == Filter(s, keep)[i] && keep(s[j])
  {
    var r := Filter(s, keep);
    assert r[i] in r;
    j :| 0 <= j < |s| && s[j] == r[i];
  }

  lemma AppendKeepsUnique<T, K>(s: seq<T>, key: T -> K, x: T)
    requires UniqueKey(s, key) && key(x) !in KeySet(s, key)
    ensures UniqueKey(s + [x], key)
    ensures KeySet(s + [x], key) == KeySet(s, key) + {key(x)}
  {
    var t := s + [x];
    forall i, j | 0 <= i < j < |t| ensures key(t[i]) != key(t[j]) {
      if j == |s| {
        assert key(s[i]) in KeySet(s, key);
      }
    }
    forall k | k in KeySet(t, key) ensures k in KeySet(s, key) + {key(x)} {
      var i :| 0 <= i < |t| && key(t[i]) == k;
      if i < |s| {
        assert key(s[i]) in KeySet(s, key);
      }
    }
    forall k | k in KeySet(s, key) ensures k in KeySet(t, key) {
      var i :| 0 <= i < |s| && key(s[i]) == k;
      assert key(t[i]) == k;
    }
    assert key(t[|s|]) == key(x);
  }

  lemma ReplaceKeepsKeys<T, K>(s: seq<T>, key: T -> K, i: nat, x: T)
    requires i < |s| && key(x) == key(s[i])
    ensures KeySet(s[i := x], key) == KeySet(s, key)
    ensures UniqueKey(s, key) ==> UniqueKey(s[i := x], key)
  {
    var t := s[i := x];
    forall k | k in KeySet(t, key) ensures k in KeySet(s, key) {
      var j :| 0 <= j < |t| && key(t[j]) == k;
      assert key(s[j]) == k;
    }
    forall k | k in KeySet(s, key) ensures k in KeySet(t, key) {
      var j :| 0 <= j < |s| && key(s[j]) == k;
      assert key(t[j]) == k;
    }
  }

  lemma DetachKeepsIds(ms: seq<Milestone>, gone: set<string>)
    requires UniqueKey(ms, MilestoneId)
    ensures UniqueKey(DetachAll(ms, gone), MilestoneId)
  {
    var r := DetachAll(ms, gone);
    forall i, j | 0 <= i < j < |r| ensures MilestoneId(r[i]) != MilestoneId(r[j]) {
      assert MilestoneId(r[i]) == MilestoneId(ms[i]) && MilestoneId(r[j]) == MilestoneId(ms[j]);
    }
  }

  // ---------------------------------------------------------------------
  // Each kind of delete keeps the database consistent
  // ---------------------------------------------------------------------

  lemma ProgramDeleteKeepsConsistent(us: seq<User>, ps: seq<Program>, ss: seq<Study>, ms: seq<Milestone>, pid: string)
    requires Consistent(us, ps, ss, ms)
    ensures Consistent(us, ProgramsWithout(ps, pid), StudiesOutsideProgram(ss, pid),
                       MilestonesAfterProgramDelete(ms, ss, pid))
  {
    var keepP := (p: Program) => p.id != pid;
    var keepS := (s: Study) => s.programId != pid;
    var keepM := (m: Milestone) => m.programId != pid;
    var ps' := ProgramsWithout(ps, pid);
    var ss' := StudiesOutsideProgram(ss, pid);
    var gone := StudyIdsOfProgram(ss, pid);
    var ms1 := Filter(ms, keepM);
    var ms' := MilestonesAfterProgramDelete(ms, ss, pid);
    assert ps' == Filter(ps, keepP);
    assert ss' == Filter(ss, keepS);
    assert ms' == DetachAll(ms1, gone);
    FilterKeepsUnique(ps, keepP, ProgramId);
    FilterKeepsUnique(ps, keepP, ProgramCode);
    FilterKeepsUnique(ss, keepS, StudyId);
    FilterKeepsUnique(ss, keepS, ProtocolNumber);
    FilterKeepsUnique(ms, keepM, MilestoneId);
    DetachKeepsIds(ms1, gone);

    // A surviving row's program survives: it is not the deleted one.
    forall pidKept | pidKept in KeySet(ps, ProgramId) && pidKept != pid
      ensures pidKept in KeySet(ps', ProgramId)
    {
      var k :| 0 <= k < |ps| && ps[k].id == pidKept;
      KeptKeyStays(ps, keepP, ProgramId, k);
    }
    forall i | 0 <= i < |ss'| ensures ss'[i].programId in KeySet(ps', ProgramId) {
      var j := FilteredRowCameFrom(ss, keepS, i);
    }
    forall i | 0 <= i < |ms'|
      ensures ms'[i].programId in KeySet(ps', ProgramId)
      ensures ms'[i].studyId.Some? ==> ms'[i].studyId.value in KeySet(ss', StudyId)
    {
      var j := FilteredRowCameFrom(ms, keepM, i);
      if ms'[i].studyId.Some? {
        var sid := ms'[i].studyId.value;
        assert sid !in gone && ms[j].studyId == Some(sid);
        var k :| 0 <= k < |ss| && ss[k].id == sid;
        assert ss[k] in ss;
        KeptKeyStays(ss, keepS, StudyId, k);
      }
    }
  }

  lemma StudyDeleteKeepsConsistent(us: seq<User>, ps: seq<Program>, ss: seq<Study>, ms: seq<Milestone>, id: string)
    requires Consistent(us, ps, ss, ms)
    ensures Consistent(us, ps, StudiesWithout(ss, id), DetachAll(ms, {id}))
  {
    var keepS := (s: Study) => s.id != id;
    var ss' := StudiesWithout(ss, id);
    var ms' := DetachAll(ms, {id});
    assert ss' == Filter(ss, keepS);
    FilterKeepsUnique(ss, keepS, StudyId);
    FilterKeepsUnique(ss, keepS, ProtocolNumber);
    DetachKeepsIds(ms, {id});
    forall i | 0 <= i < |ss'| ensures ss'[i].programId in KeySet(ps, ProgramId) {
      var j := FilteredRowCameFrom(ss, keepS, i);
    }
    forall i | 0 <= i < |ms'|
      ensures ms'[i].programId in KeySet(ps, ProgramId)
      ensures ms'[i].studyId.Some? ==> ms'[i].studyId.value in KeySet(ss', StudyId)
    {
      if ms'[i].studyId.Some? {
        var sid := ms'[i].studyId.value;
        assert sid != id && ms[i].studyId == Some(sid);
        var k :| 0 <= k < |ss| && ss[k].id == sid;
        KeptKeyStays(ss, keepS, StudyId, k);
      }
    }
  }

  lemma MilestoneDeleteKeepsConsistent(us: seq<User>, ps: seq<Program>, ss: seq<Study>, ms: seq<Milestone>, id: string)
    requires Consistent(us, ps, ss, ms)
    ensures Consistent(us, ps, ss, MilestonesWithout(ms, id))
  {
    var keepM := (m: Milestone) => m.id != id;
    var ms' := MilestonesWithout(ms, id);
    assert ms' == Filter(ms, keepM);
    FilterKeepsUnique(ms, keepM, MilestoneId);
    forall i | 0 <= i < |ms'|
      ensures ms'[i].programId in KeySet(ps, ProgramId)
      ensures ms'[i].studyId.Some? ==> ms'[i].studyId.value in KeySet(ss, StudyId)
    {
      var j := FilteredRowCameFrom(ms, keepM, i);
    }
  }

  /** With unique ids, deleting by id removes exactly the one row with that id and keeps the order of the rest. */
  lemma DeleteRemovesExactlyOne(ps: seq<Program>, i: nat)
    requires ProgramsOk(ps) && i < |ps|
    ensures ProgramsWithout(ps, ps[i].id) == ps[..i] + ps[i + 1..]
  {
    var id := ps[i].id;
    var keep := (p: Program) => p.id != id;
    forall j | 0 <= j < |ps| && j != i ensures keep(ps[j]) {
      if j < i {
        assert ProgramId(ps[j]) != ProgramId(ps[i]);
      } else {
        assert ProgramId(ps[i]) != ProgramId(ps[j]);
      }
    }
    FilterRemovesOne(ps, keep, i);
  }

  lemma StudyDeleteRemovesExactlyOne(ss: seq<Study>, i: nat)
    requires UniqueKey(ss, StudyId) && i < |ss|
    ensures StudiesWithout(ss, ss[i].id) == ss[..i] + ss[i + 1..]
  {
    var id := ss[i].id;
    var keep := (s: Study) => s.id != id;
    forall j | 0 <= j < |ss| && j != i ensures keep(ss[j]) {
      if j < i {
        assert StudyId(ss[j]) != StudyId(ss[i]);
      } else {
        assert StudyId(ss[i]) != StudyId(ss[j]);
      }
    }
    FilterRemovesOne(ss, keep, i);
  }

  lemma MilestoneDeleteRemovesExactlyOne(ms: seq<Milestone>, i: nat)
    requires UniqueKey(ms, MilestoneId) && i < |ms|
    ensures MilestonesWithout(ms, ms[i].id) == ms[..i] + ms[i + 1..]
  {
    var id := ms[i].id;
    var keep := (m: Milestone) => m.id != id;
    forall j | 0 <= j < |ms| && j != i ensures keep(ms[j]) {
      if j < i {
        assert MilestoneId(ms[j]) != MilestoneId(ms[i]);
      } else {
        assert MilestoneId(ms[i]) != MilestoneId(ms[j]);
      }
    }
    FilterRemovesOne(ms, keep, i);
  }

  // ---------------------------------------------------------------------
  // The handle
  // ---------------------------------------------------------------------

  class Store {
    var users: seq<User>
    var programs: seq<Program>
    var studies: seq<Study>
    var milestones: seq<Milestone>

    ghost predicate Valid()
      reads this
    {
      Consistent(users, programs, studies, milestones)
    }

    /** The four tables together, to say that a statement changed none of them. */
    function Tables(): (seq<User>, seq<Program>, seq<Study>, seq<Milestone>)
      reads this
    {
      (users, programs, studies, milestones)
    }

    /** initializeDatabase on a new file: four empty tables. */
    constructor ()
      ensures Valid()
      ensures users == [] && programs == [] && studies == [] && milestones == []
    {
      users, programs, studies, milestones := [], [], [], [];
    }

    /** INSERT INTO users: refused on a taken id or username. */
    method InsertUser(u: User) returns (ok: bool)
      requires Valid()
      modifies this
      ensures Valid()
      ensures ok <==> u.id !in KeySet(old(users), UserId) && u.username !in KeySet(old(users), Username)
      ensures users == (if ok then old(users) + [u] else old(users))
      ensures programs == old(programs) && studies == old(studies) && milestones == old(milestones)
    {
      ok := IndexOf(users, UserId, u.id).None? && IndexOf(users, Username, u.username).None?;
      if ok {
        AppendKeepsUnique(users, UserId, u);
        AppendKeepsUnique(users, Username, u);
        users := users + [u];
      }
    }

    /** INSERT INTO programs: refused on a taken id or code. */
    method InsertProgram(p: Program) returns (ok: bool)
      requires Valid()
      modifies this
      ensures Valid()
      ensures ok <==> p.id !in KeySet(old(programs), ProgramId) && p.code !in KeySet(old(programs), ProgramCode)
      ensures programs == (if ok then old(programs) + [p] else old(programs))
      ensures users == old(users) && studies == old(studies) && milestones == old(milestones)
    {
      ok := IndexOf(programs, ProgramId, p.id).None? && IndexOf(programs, ProgramCode, p.code).None?;
      if ok {
        AppendKeepsUnique(programs, ProgramId, p);
        AppendKeepsUnique(programs, ProgramCode, p);
        programs := programs + [p];
      }
    }

    /** INSERT INTO studies: refused on a taken id or protocol number, or an unknown program. */
    method InsertStudy(s: Study) returns (ok: bool)
      requires Valid()
      modifies this
      ensures Valid()
      ensures ok <==> && s.id !in KeySet(old(studies), StudyId)
                      && s.protocolNumber !in KeySet(old(studies), ProtocolNumber)
                      && s.programId in KeySet(old(programs), ProgramId)
      ensures studies == (if ok then old(studies) + [s] else old(studies))
      ensures users == old(users) && programs == old(programs) && milestones == old(milestones)
    {
      ok := && IndexOf(studies, StudyId, s.id).None?
            && IndexOf(studies, ProtocolNumber, s.protocolNumber).None?
            && IndexOf(programs, ProgramId, s.programId).Some?;
      if ok {
        AppendKeepsUnique(studies, StudyId, s);
        AppendKeepsUnique(studies, ProtocolNumber, s);
        studies := studies + [s];
      }
    }

    /** INSERT INTO milestones: refused on a taken id, an unknown program or an unknown study. */
    method InsertMilestone(m: Milestone) returns (ok: bool)
      requires Valid()
      modifies this
      ensures Valid()
      ensures ok <==> && m.id !in KeySet(old(milestones), MilestoneId)
                      && m.programId in KeySet(old(programs), ProgramId)
                      && (m.studyId.Some? ==> m.studyId.value in KeySet(old(studies), StudyId))
      ensures milestones == (if ok then old(milestones) + [m] else old(milestones))
      ensures users == old(users) && programs == old(programs) && studies == old(studies)
    {
      ok := && IndexOf(milestones, MilestoneId, m.id).None?
            && IndexOf(programs, ProgramId, m.programId).Some?
            && (m.studyId.None? || IndexOf(studies, StudyId, m.studyId.value).Some?);
      if ok {
        AppendKeepsUnique(milestones, MilestoneId, m);
        milestones := milestones + [m];
      }
    }

    /** UPDATE programs SET ... WHERE id = ?: the statement never writes id or code. */
    method UpdateProgramAt(i: nat, p: Program)
      requires Valid()
      requires i < |programs| && programs[i].id == p.id && programs[i].code == p.code
      modifies this
      ensures Valid()
      ensures programs == old(programs)[i := p]
      ensures users == old(users) && studies == old(studies) && milestones == old(milestones)
    {
      ReplaceKeepsKeys(programs, ProgramId, i, p);
      ReplaceKeepsKeys(programs, ProgramCode, i, p);
      programs := programs[i := p];
    }

    /** UPDATE studies SET ... WHERE id = ?: the statement never writes id, program_id or protocol_number. */
    method UpdateStudyAt(i: nat, s: Study)
      requires Valid()
      requires i < |studies| && studies[i].id == s.id
      requires studies[i].programId == s.programId && studies[i].protocolNumber == s.protocolNumber
      modifies this
      ensures Valid()
      ensures studies == old(studies)[i := s]
      ensures users == old(users) && programs == old(programs) && milestones == old(milestones)
    {
      ReplaceKeepsKeys(studies, StudyId, i, s);
      ReplaceKeepsKeys(studies, ProtocolNumber, i, s);
      studies := studies[i := s];
    }

    /** UPDATE milestones SET ... WHERE id = ?: the statement never writes id, program_id or study_id. */
    method UpdateMilestoneAt(i: nat, m: Milestone)
      requires Valid()
      requires i < |milestones| && milestones[i].id == m.id
      requires milestones[i].programId == m.programId && milestones[i].studyId == m.studyId
      modifies this
      ensures Valid()
      ensures milestones == old(milestones)[i := m]
      ensures users == old(users) && programs == old(programs) && studies == old(studies)
    {
      ReplaceKeepsKeys(milestones, MilestoneId, i, m);
      milestones := milestones[i := m];
    }

    /** DELETE FROM programs WHERE id = ?, with both cascades and the set-null they trigger. */
    method DeleteProgram(id: string)
      requires Valid()
      modifies this
      ensures Valid()
      ensures programs == ProgramsWithout(old(programs), id)
      ensures studies == StudiesOutsideProgram(old(studies), id)
      ensures milestones == MilestonesAfterProgramDelete(old(milestones), old(studies), id)
      ensures users == old(users)
    {
      ProgramDeleteKeepsConsistent(users, programs, studies, milestones, id);
      milestones := MilestonesAfterProgramDelete(milestones, studies, id);
      studies := StudiesOutsideProgram(studies, id);
      programs := ProgramsWithout(programs, id);
    }

    /** DELETE FROM studies WHERE id = ?; milestones that pointed at it get study_id NULL. */
    method DeleteStudy(id: string)
      requires Valid()
      modifies this
      ensures Valid()
      ensures studies == StudiesWithout(old(studies), id)
      ensures milestones == DetachAll(old(milestones), {id})
      ensures users == old(users) && programs == old(programs)
    {
      StudyDeleteKeepsConsistent(users, programs, studies, milestones, id);
      studies := StudiesWithout(studies, id);
      milestones := DetachAll(milestones, {id});
    }

    /** DELETE FROM milestones WHERE id = ? */
    method DeleteMilestone(id: string)
      requires Valid()
      modifies this
      ensures Valid()
      ensures milestones == MilestonesWithout(old(milestones), id)
      ensures users == old(users) && programs == old(programs) && studies == old(studies)
    {
      MilestoneDeleteKeepsConsistent(users, programs, studies, milestones, id);
      milestones := MilestonesWithout(milestones, id);
    }
  }
}
