/**
 * The per-user history kept by main.py: file naming, the user-id checks, and
 * the session state whose two histories are reloaded when the id changes,
 * grown by a query or a calculation, shrunk by a delete, and written back in
 * full after every change.
 */
module UserSession {
  import opened Wrappers
  import opened Strings
  import opened MemoryStore
  import opened RagTool
  import opened TariffLookup
  import opened DutyCalculator

  /** One element of a history file: a query and its answer, or a duty calculation. */
  datatype Entry =
    | RagEntry(query: string, response: string)
    | DutyEntry(htsCode: string, productCost: real, freight: real, insurance: real,
                dutyCost: real, totalLandedCost: real)

  /** `get_memory_file(user_id, file_type)`. */
  function GetMemoryFile(userId: string, fileType: string): (r: string)
    ensures |r| == |userId| + |fileType| + 13
    ensures r[..|userId|] == userId && r[|userId|] == '_'
    ensures r[|userId| + 1..|userId| + 1 + |fileType|] == fileType
    ensures r[|userId| + 1 + |fileType|..] == "_memory.json"
  {
    userId + ("_" + (fileType + "_memory.json"))
  }

  function RagFile(userId: string): string { GetMemoryFile(userId, "rag") }

  function DutyFile(userId: string): string { GetMemoryFile(userId, "duty") }

  /** `str.isdigit()` over ASCII digits: non-empty and digits only. */
  predicate IsDigitString(s: string)
  {
    |s| > 0 && forall i :: 0 <= i < |s| ==> '0' <= s[i] <= '9'
  }

  /** `validate_user_id_format`: a 4-digit id. */
  predicate ValidateUserIdFormat(userId: string)
    ensures ValidateUserIdFormat(userId) ==> |userId| == 4 && '_' !in userId
  {
    IsDigitString(userId) && |userId| == 4
  }

  /** `validate_user_id`: the id already has a history file of either kind. */
  predicate ValidateUserId(userId: string, files: FileStore<Entry>)
    ensures !ValidateUserId(userId, files) ==>
              Load(files, RagFile(userId)) == [] && Load(files, DutyFile(userId)) == []
  {
    RagFile(userId) in files || DutyFile(userId) in files
  }

  /** `list.pop(idx)`: the entry at `idx` removed, the others kept in order. */
  function RemoveAt<T>(s: seq<T>, idx: nat): (r: seq<T>)
    requires idx < |s|
    ensures |r| == |s| - 1
    ensures forall j :: 0 <= j < idx ==> r[j] == s[j]
    ensures forall j :: idx <= j < |r| ==> r[j] == s[j + 1]
    ensures multiset(r) + multiset{s[idx]} == multiset(s)
  {
    assert s == s[..idx] + [s[idx]] + s[idx + 1..];
    s[..idx] + s[idx + 1..]
  }

  // ------------------------------------------------------- file names

  /** A valid id is four digits, so it has no '_'. */
  lemma ValidIdHasNoUnderscore(userId: string)
    requires ValidateUserIdFormat(userId)
    ensures '_' !in userId
  {
  }

  /** Where the shorter id's name has its '_', the longer id has one of its own characters. */
  lemma ShorterIdDiffers(u1: string, t1: string, u2: string, t2: string)
    requires |u1| < |u2| && '_' !in u2
    ensures GetMemoryFile(u1, t1) != GetMemoryFile(u2, t2)
  {
    assert GetMemoryFile(u1, t1)[|u1|] == '_';
    assert GetMemoryFile(u2, t2)[|u1|] == u2[|u1|];
  }

  /** Ids without '_' never share a memory file: the file name determines the id and the kind. */
  lemma {:induction false} MemoryFileInjective(u1: string, t1: string, u2: string, t2: string)
    requires '_' !in u1 && '_' !in u2
    requires GetMemoryFile(u1, t1) == GetMemoryFile(u2, t2)
    ensures u1 == u2 && t1 == t2
  {
    var n := GetMemoryFile(u1, t1);
    if |u1| < |u2| {
      ShorterIdDiffers(u1, t1, u2, t2);
      assert false;
    } else if |u2| < |u1| {
      ShorterIdDiffers(u2, t2, u1, t1);
      assert false;
    }
    var r1 := t1 + "_memory.json";
    var r2 := t2 + "_memory.json";
    assert u1 == n[..|u1|] == u2;
    assert "_" + r1 == n[|u1|..] == "_" + r2;
    assert r1 == ("_" + r1)[1..] == r2;
    assert t1 == r1[..|t1|] == t2;
  }

  /** Distinct valid (id, kind) pairs have distinct files. */
  lemma DistinctUsersDistinctFiles(u1: string, t1: string, u2: string, t2: string)
    requires ValidateUserIdFormat(u1) && ValidateUserIdFormat(u2)
    requires u1 != u2 || t1 != t2
    ensures GetMemoryFile(u1, t1) != GetMemoryFile(u2, t2)
  {
    ValidIdHasNoUnderscore(u1);
    ValidIdHasNoUnderscore(u2);
    if GetMemoryFile(u1, t1) == GetMemoryFile(u2, t2) {
      MemoryFileInjective(u1, t1, u2, t2);
    }
  }

  /** One user's two histories live in different files. */
  lemma RagAndDutyFilesDiffer(userId: string)
    ensures RagFile(userId) != DutyFile(userId)
  {
    assert |RagFile(userId)| != |DutyFile(userId)|;
  }

  lemma FormatExamples(ok: string, short: string, letter: string, long: string)
    requires ok == "1234" && short == "123" && letter == "12a4" && long == "12345"
    ensures ValidateUserIdFormat(ok)
    ensures !ValidateUserIdFormat(short) && !ValidateUserIdFormat(letter) && !ValidateUserIdFormat(long)
    ensures !ValidateUserIdFormat("")
  {
    assert !('0' <= letter[2] <= '9');
  }

  lemma FileNameExamples(id: string)
    requires id == "1234"
    ensures RagFile(id) == "1234_rag_memory.json" && DutyFile(id) == "1234_duty_memory.json"
  {
  }

  /**
   * The reload of `reset_memory_on_id_change` is plain loading: when neither
   * file exists, loading either one gives `[]` as well.
   */
  lemma ReloadIsLoad(userId: string, files: FileStore<Entry>)
    ensures (if ValidateUserId(userId, files) then Load(files, RagFile(userId)) else [])
         == Load(files, RagFile(userId))
    ensures (if ValidateUserId(userId, files) then Load(files, DutyFile(userId)) else [])
         == Load(files, DutyFile(userId))
  {
  }

  // ------------------------------------------------------ session state

  /**
   * `st.session_state` (the id and the two histories) together with the
   * memory files on disk.
   */
  class Session {
    var userId: Option<string>
    var ragMemory: seq<Entry>
    var dutyMemory: seq<Entry>
    var files: FileStore<Entry>

    /**
     * Each history is what its file holds, for the current user: every
     * change is saved in full right away.
     */
    ghost predicate Synced()
      reads this
      ensures userId == None ==> Synced()
    {
      userId.Some? ==>
        ragMemory == Load(files, RagFile(userId.value))
        && dutyMemory == Load(files, DutyFile(userId.value))
    }

    /** A fresh session, before any id has been entered. */
    constructor (files: FileStore<Entry>)
      ensures userId == None && ragMemory == [] && dutyMemory == [] && this.files == files
      ensures Synced()
    {
      userId := None;
      ragMemory := [];
      dutyMemory := [];
      this.files := files;
    }

    /** `reset_memory_on_id_change(new_user_id)`. */
    method ResetMemoryOnIdChange(newUserId: string)
      requires Synced()
      modifies this
      ensures Synced()
      ensures files == old(files) && userId == Some(newUserId)
      ensures old(userId) == Some(newUserId) ==>
                ragMemory == old(ragMemory) && dutyMemory == old(dutyMemory)
      ensures old(userId) != Some(newUserId) ==>
                && ragMemory == (if ValidateUserId(newUserId, files) then Load(files, RagFile(newUserId)) else [])
                && dutyMemory == (if ValidateUserId(newUserId, files) then Load(files, DutyFile(newUserId)) else [])
    {
      if userId != Some(newUserId) {
        userId := Some(newUserId);
        ragMemory := if ValidateUserId(newUserId, files) then Load(files, RagFile(newUserId)) else [];
        dutyMemory := if ValidateUserId(newUserId, files) then Load(files, DutyFile(newUserId)) else [];
        ReloadIsLoad(newUserId, files);
      }
    }

    /** main.py lines 56-60: only a well-formed id reaches the tools. */
    method EnterUserId(input: string) returns (accepted: bool)
      requires Synced()
      modifies this
      ensures Synced() && files == old(files)
      ensures accepted == ValidateUserIdFormat(input)
      ensures !accepted ==>
                userId == old(userId) && ragMemory == old(ragMemory) && dutyMemory == old(dutyMemory)
      ensures accepted ==> userId == Some(input)
      ensures accepted && old(userId) == Some(input) ==>
                ragMemory == old(ragMemory) && dutyMemory == old(dutyMemory)
      ensures accepted && old(userId) != Some(input) ==>
                ragMemory == Load(files, RagFile(input)) && dutyMemory == Load(files, DutyFile(input))
    {
      accepted := ValidateUserIdFormat(input);
      if accepted {
        ResetMemoryOnIdChange(input);
        ReloadIsLoad(input, files);
      }
    }

    /** main.py lines 76-85: answer a non-empty query, append it to the history and save. */
    method SubmitQuery(query: string, index: Source<Option<seq<string>>>, documents: Source<seq<string>>)
      returns (response: Option<string>)
      requires Synced() && userId.Some?
      modifies this
      ensures Synced() && userId == old(userId) && dutyMemory == old(dutyMemory)
      ensures query == "" ==> response == None && ragMemory == old(ragMemory) && files == old(files)
      ensures query != "" ==>
                && response == Some(HandleRagQuery(query, index, documents))
                && ragMemory == old(ragMemory) + [RagEntry(query, response.value)]
                && files == Save(old(files), RagFile(userId.value), ragMemory)
    {
      if query == "" {
        return None;
      }
      var answer := HandleRagQuery(query, index, documents);
      ragMemory := ragMemory + [RagEntry(query, answer)];
      RagAndDutyFilesDiffer(userId.value);
      files := Save(files, RagFile(userId.value), ragMemory);
      response := Some(answer);
    }

    /** main.py lines 96-99: delete query `idx` and save. */
    method DeleteRagEntry(idx: nat)
      requires Synced() && userId.Some? && idx < |ragMemory|
      modifies this
      ensures Synced() && userId == old(userId) && dutyMemory == old(dutyMemory)
      ensures ragMemory == RemoveAt(old(ragMemory), idx)
      ensures files == Save(old(files), RagFile(userId.value), ragMemory)
    {
      ragMemory := RemoveAt(ragMemory, idx);
      RagAndDutyFilesDiffer(userId.value);
      files := Save(files, RagFile(userId.value), ragMemory);
    }

    /** main.py lines 114-127: compute a landed cost, append it with its inputs and save. */
    method SubmitCalculation(schedule: Schedule, htsCode: string,
                             productCost: real, freight: real, insurance: real)
      returns (result: DutyResult)
      requires Synced() && userId.Some?
      modifies this
      ensures Synced() && userId == old(userId) && ragMemory == old(ragMemory)
      ensures result == HandleDutyCalculation(schedule, htsCode, productCost, freight, insurance)
      ensures dutyMemory == old(dutyMemory) + [DutyEntry(htsCode, productCost, freight, insurance,
                                                         result.dutyCost, result.totalLandedCost)]
      ensures files == Save(old(files), DutyFile(userId.value), dutyMemory)
    {
      result := HandleDutyCalculation(schedule, htsCode, productCost, freight, insurance);
      dutyMemory := dutyMemory + [DutyEntry(htsCode, productCost, freight, insurance,
                                            result.dutyCost, result.totalLandedCost)];
      RagAndDutyFilesDiffer(userId.value);
      files := Save(files, DutyFile(userId.value), dutyMemory);
    }

    /** main.py lines 140-143: delete calculation `idx` and save. */
    method DeleteDutyEntry(idx: nat)
      requires Synced() && userId.Some? && idx < |dutyMemory|
      modifies this
      ensures Synced() && userId == old(userId) && ragMemory == old(ragMemory)
      ensures dutyMemory == RemoveAt(old(dutyMemory), idx)
      ensures files == Save(old(files), DutyFile(userId.value), dutyMemory)
    {
      dutyMemory := RemoveAt(dutyMemory, idx);
      RagAndDutyFilesDiffer(userId.value);
      files := Save(files, DutyFile(userId.value), dutyMemory);
    }
  }

  /**
   * A session as a user sees it: a malformed id is refused, a returning
   * user's history is reloaded, a query is added and deleted again, and
   * another user's file is never touched.
   */
  method Scenario(u: string, v: string, bad: string, history: seq<Entry>, other: seq<Entry>,
                  docs: seq<string>)
    returns (refused: bool, reloaded: seq<Entry>, afterDelete: seq<Entry>, untouched: seq<Entry>)
    requires ValidateUserIdFormat(u) && ValidateUserIdFormat(v) && u != v
    requires !ValidateUserIdFormat(bad)
    ensures !refused
    ensures reloaded == history && afterDelete == history && untouched == other
  {
    DistinctUsersDistinctFiles(u, "rag", v, "rag");
    DistinctUsersDistinctFiles(u, "duty", v, "rag");
    var files := map[RagFile(u) := history, RagFile(v) := other];
    var s := new Session(files);
    refused := s.EnterUserId(bad);
    assert !refused && s.userId == None;
    var accepted := s.EnterUserId(u);
    assert accepted && s.ragMemory == history && s.dutyMemory == [];
    reloaded := s.ragMemory;
    var answer := s.SubmitQuery("", Available(None), Available(docs));
    assert answer == None;
    answer := s.SubmitQuery("x", Available(Some(["passage"])), Available(docs));
    assert s.ragMemory == history + [RagEntry("x", "passage")];
    s.DeleteRagEntry(|history|);
    afterDelete := s.ragMemory;
    untouched := Load(s.files, RagFile(v));
  }
}
