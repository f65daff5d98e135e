/**
 * The blacklist register and the restriction flags. Three places say the same thing about
 * an applicant: an unlifted register entry, the applicant's own switch, and the
 * BLACKLISTED flag; the website's account switch is a fourth.
 */
module Blacklist {
  import opened Wrappers

  datatype Kind = Temporary | Permanent

  datatype Flag =
    | Blacklisted | LegalHold | PaymentDispute | VerificationFailed | Vip | Duplicate | DoNotContact | International

  datatype Origin = FromCrm | FromWebsite

  datatype Applicant = Applicant(deleted: bool, isBlacklisted: bool)
  datatype Entry = Entry(applicant: nat, kind: Kind, until: Option<int>, reason: string, lifted: bool)
  datatype FlagRow = FlagRow(applicant: nat, flag: Flag, removed: bool)
  datatype Push = Push(applicant: nat, block: bool)

  /** `pushed` is the log of what was sent to the website. */
  datatype Register = Register(applicants: seq<Applicant>, entries: seq<Entry>, flags: seq<FlagRow>, pushed: seq<Push>)

  datatype Outcome = Done(id: nat) | NotFound | Invalid | AlreadyBlacklisted | AlreadyLifted | FlagExists | UnknownApplicant

  /** What the website is told about its own message. */
  datatype Reply = Reply(matched: bool, applicant: Option<nat>, changed: bool)

  function FirstActive(entries: seq<Entry>, applicant: nat): Option<nat> {
    if entries == [] then None
    else
      var last := |entries| - 1;
      FirstActive(entries[..last], applicant).OrElse(
        if entries[last].applicant == applicant && !entries[last].lifted then Some(last) else None)
  }

  predicate Active(r: Register, applicant: nat) {
    exists i :: 0 <= i < |r.entries| && r.entries[i].applicant == applicant && !r.entries[i].lifted
  }

  predicate Flagged(flags: seq<FlagRow>, applicant: nat, flag: Flag) {
    exists i :: 0 <= i < |flags| && flags[i] == FlagRow(applicant, flag, false)
  }

  /** INSERT … ON CONFLICT DO NOTHING, under one unremoved row per applicant and flag. */
  function WithFlag(flags: seq<FlagRow>, applicant: nat, flag: Flag): seq<FlagRow> {
    if Flagged(flags, applicant, flag) then flags else flags + [FlagRow(applicant, flag, false)]
  }

  function WithoutFlag(flags: seq<FlagRow>, applicant: nat, flag: Flag): seq<FlagRow> {
    seq(|flags|, i requires 0 <= i < |flags| =>
      if flags[i].applicant == applicant && flags[i].flag == flag then flags[i].(removed := true) else flags[i])
  }

  // ── Adding and lifting: a look first, a transaction after it, and a push after that ──

  /** What an add finds when it looks, if it is a reason to refuse. */
  function AddRefusal(r: Register, applicant: nat, kind: Kind, until: Option<int>): Option<Outcome> {
    if applicant >= |r.applicants| || r.applicants[applicant].deleted then Some(NotFound)
    else if kind == Temporary && until.None? then Some(Invalid)
    else if kind == Permanent && until.Some? then Some(Invalid)
    else if FirstActive(r.entries, applicant).Some? then Some(AlreadyBlacklisted)
    else None
  }

  /** The transaction of an add, which looks at nothing. */
  function CommitAdd(r: Register, applicant: nat, kind: Kind, until: Option<int>, reason: string): Register
    requires applicant < |r.applicants|
  {
    Register(r.applicants[applicant := r.applicants[applicant].(isBlacklisted := true)],
             r.entries + [Entry(applicant, kind, until, reason, false)],
             WithFlag(r.flags, applicant, Blacklisted),
             r.pushed)
  }

  function LiftRefusal(r: Register, id: nat): Option<Outcome> {
    if id >= |r.entries| then Some(NotFound)
    else if r.entries[id].lifted then Some(AlreadyLifted)
    else None
  }

  /** The transaction of a lift: switch and flag go only if nothing else is still in force. */
  function CommitLift(r: Register, id: nat): Register
    requires id < |r.entries|
  {
    var applicant := r.entries[id].applicant;
    var entries := r.entries[id := r.entries[id].(lifted := true)];
    if FirstActive(entries, applicant).Some? || applicant >= |r.applicants| then r.(entries := entries)
    else
      r.(applicants := r.applicants[applicant := r.applicants[applicant].(isBlacklisted := false)],
         entries := entries,
         flags := WithoutFlag(r.flags, applicant, Blacklisted))
  }

  /** The website is told of a block whatever has happened since, and of a lift only if nothing is in force. */
  function Tell(r: Register, push: Push): Register {
    if !push.block && FirstActive(r.entries, push.applicant).Some? then r else r.(pushed := r.pushed + [push])
  }

  function TellIfOurs(r: Register, push: Push, origin: Origin): Register {
    if origin == FromCrm then Tell(r, push) else r
  }

  /** Look, transaction and push with nothing else in between. */
  function Add(r: Register, applicant: nat, kind: Kind, until: Option<int>, reason: string, origin: Origin)
    : (Register, Outcome)
  {
    match AddRefusal(r, applicant, kind, until)
    case Some(outcome) => (r, outcome)
    case None =>
      (TellIfOurs(CommitAdd(r, applicant, kind, until, reason), Push(applicant, true), origin), Done(|r.entries|))
  }

  function Lift(r: Register, id: nat, origin: Origin): (Register, Outcome) {
    match LiftRefusal(r, id)
    case Some(outcome) => (r, outcome)
    case None => (TellIfOurs(CommitLift(r, id), Push(r.entries[id].applicant, false), origin), Done(id))
  }

  const WEBSITE_BLOCK_DETAIL := "Account blocked on the NBR website."

  /** The website blocked or unblocked the account of `who`: the live applicant its identifiers match, if any. */
  function Hear(r: Register, who: Option<nat>, block: bool, reason: string): (Register, Reply) {
    match who
    case None => (r, Reply(false, None, false))
    case Some(applicant) =>
      match FirstActive(r.entries, applicant)
      case Some(id) =>
        if block then (r, Reply(true, who, false))
        else (Lift(r, id, FromWebsite).0, Reply(true, who, true))
      case None =>
        if !block then (r, Reply(true, who, false))
        else
          var detail := if reason == "" then WEBSITE_BLOCK_DETAIL else reason;
          (Add(r, applicant, Permanent, None, detail, FromWebsite).0, Reply(true, who, true))
  }

  /** Only live applicants are ever matched. */
  function Matched(r: Register, who: Option<nat>): Option<nat> {
    if who.Some? && who.value < |r.applicants| && !r.applicants[who.value].deleted then who else None
  }

  /** `flag` is missing when the code names no flag. */
  function SetFlag(r: Register, applicant: nat, flag: Option<Flag>): (Register, Outcome) {
    if flag.None? || flag.value == Blacklisted then (r, Invalid)
    else if applicant >= |r.applicants| then (r, UnknownApplicant)
    else if Flagged(r.flags, applicant, flag.value) then (r, FlagExists)
    else (r.(flags := r.flags + [FlagRow(applicant, flag.value, false)]), Done(|r.flags|))
  }

  function RemoveFlag(r: Register, applicant: nat, flag: Option<Flag>): (Register, Outcome) {
    if flag == Some(Blacklisted) then (r, Invalid)
    else if flag.None? || !Flagged(r.flags, applicant, flag.value) then (r, NotFound)
    else (r.(flags := WithoutFlag(r.flags, applicant, flag.value)), Done(0))
  }

  // ── One request at a time ───────────────────────────────────────────────────────────────────

  datatype Step =
    | NewApplicant
    | SetDeleted(applicant: nat, deleted: bool)
    | Blacklist(applicant: nat, kind: Kind, until: Option<int>, reason: string)
    | LiftEntry(id: nat)
    | Website(who: Option<nat>, block: bool, reason: string)
    | Raise(applicant: nat, flag: Option<Flag>)
    | Clear(applicant: nat, flag: Option<Flag>)

  function Next(r: Register, step: Step): Register {
    match step
    case NewApplicant => r.(applicants := r.applicants + [Applicant(false, false)])
    case SetDeleted(a, deleted) =>
      if a < |r.applicants| then r.(applicants := r.applicants[a := r.applicants[a].(deleted := deleted)]) else r
    case Blacklist(a, kind, until, reason) => Add(r, a, kind, until, reason, FromCrm).0
    case LiftEntry(id) => Lift(r, id, FromCrm).0
    case Website(who, block, reason) => Hear(r, Matched(r, who), block, reason).0
    case Raise(a, flag) => SetFlag(r, a, flag).0
    case Clear(a, flag) => RemoveFlag(r, a, flag).0
  }

  function Run(r: Register, steps: seq<Step>): Register {
    if steps == [] then r else Next(Run(r, steps[..|steps| - 1]), steps[|steps| - 1])
  }

  const EMPTY := Register([], [], [], [])

  // ── Agreement ──────────────────────────────────────────────────────────────

  predicate OneActiveEach(entries: seq<Entry>) {
    forall i, j :: 0 <= i < j < |entries| && entries[i].applicant == entries[j].applicant ==>
      entries[i].lifted || entries[j].lifted
  }

  predicate OneRowEach(flags: seq<FlagRow>) {
    forall i, j :: 0 <= i < j < |flags| && flags[i] == flags[j] ==> flags[i].removed
  }

  /** The three places agree about one applicant. */
  predicate Agree(r: Register, applicant: nat) {
    && applicant < |r.applicants|
    && (r.applicants[applicant].isBlacklisted <==> Active(r, applicant))
    && (Flagged(r.flags, applicant, Blacklisted) <==> Active(r, applicant))
  }

  predicate RowsKnown(r: Register) {
    && (forall i :: 0 <= i < |r.entries| ==> r.entries[i].applicant < |r.applicants|)
    && (forall i :: 0 <= i < |r.flags| ==> r.flags[i].applicant < |r.applicants|)
  }

  predicate Inv(r: Register) {
    && RowsKnown(r) && OneRowEach(r.flags)
    && forall a :: 0 <= a < |r.applicants| ==> Agree(r, a)
  }

  /** Nothing is ever deleted: an entry keeps its place and wording, and only its lifting is ever recorded. */
  predicate HistoryKept(before: seq<Entry>, after: seq<Entry>) {
    && |before| <= |after|
    && forall i :: 0 <= i < |before| ==>
         after[i] == before[i] || (!before[i].lifted && after[i] == before[i].(lifted := true))
  }

  lemma {:induction false} FirstActiveExact(entries: seq<Entry>, applicant: nat)
    ensures match FirstActive(entries, applicant)
            case None => forall i :: 0 <= i < |entries| ==> entries[i].applicant != applicant || entries[i].lifted
            case Some(id) => id < |entries| && entries[id].applicant == applicant && !entries[id].lifted
  {
    if entries != [] {
      FirstActiveExact(entries[..|entries| - 1], applicant);
    }
  }

  lemma WithFlagExact(flags: seq<FlagRow>, applicant: nat, flag: Flag)
    requires OneRowEach(flags)
    ensures OneRowEach(WithFlag(flags, applicant, flag))
    ensures forall a, f :: Flagged(WithFlag(flags, applicant, flag), a, f) <==>
              Flagged(flags, a, f) || (a == applicant && f == flag)
  {
    var after := WithFlag(flags, applicant, flag);
    forall a, f
      ensures Flagged(after, a, f) <==> Flagged(flags, a, f) || (a == applicant && f == flag)
    {
      assert forall i :: 0 <= i < |flags| ==> after[i] == flags[i];
      assert !Flagged(flags, applicant, flag) ==> after[|flags|] == FlagRow(applicant, flag, false);
    }
  }

  lemma WithoutFlagExact(flags: seq<FlagRow>, applicant: nat, flag: Flag)
    requires OneRowEach(flags)
    ensures OneRowEach(WithoutFlag(flags, applicant, flag))
    ensures forall a, f :: Flagged(WithoutFlag(flags, applicant, flag), a, f) <==>
              Flagged(flags, a, f) && !(a == applicant && f == flag)
  {
    var after := WithoutFlag(flags, applicant, flag);
    forall a, f
      ensures Flagged(after, a, f) <==> Flagged(flags, a, f) && !(a == applicant && f == flag)
    {
      assert forall i :: 0 <= i < |flags| && flags[i] == FlagRow(a, f, false) && !(a == applicant && f == flag) ==>
          after[i] == flags[i];
    }
  }

  /** However late the transaction of an add comes, the three places agree after it, and its applicant is blocked. */
  lemma CommitAddKeeps(r: Register, applicant: nat, kind: Kind, until: Option<int>, reason: string)
    requires Inv(r) && applicant < |r.applicants|
    ensures var after := CommitAdd(r, applicant, kind, until, reason);
            && Inv(after) && HistoryKept(r.entries, after.entries)
            && Active(after, applicant)
            && (forall a :: a != applicant ==> (Active(after, a) <==> Active(r, a)))
  {
    var after := CommitAdd(r, applicant, kind, until, reason);
    WithFlagExact(r.flags, applicant, Blacklisted);
    EntryAppended(r, after);
    AgreeAfter(r, after, applicant);
  }

  /** It leaves one unlifted entry each exactly when its applicant has none by then. */
  lemma SecondEntryIff(r: Register, applicant: nat, kind: Kind, until: Option<int>, reason: string)
    requires OneActiveEach(r.entries) && applicant < |r.applicants|
    ensures OneActiveEach(CommitAdd(r, applicant, kind, until, reason).entries) <==> !Active(r, applicant)
  {
    var after := CommitAdd(r, applicant, kind, until, reason).entries;
    if Active(r, applicant) {
      var i :| 0 <= i < |r.entries| && r.entries[i].applicant == applicant && !r.entries[i].lifted;
      assert after[i] == r.entries[i] && after[|r.entries|].applicant == applicant;
    }
  }

  lemma AddKeeps(r: Register, applicant: nat, kind: Kind, until: Option<int>, reason: string, origin: Origin)
    requires Inv(r)
    ensures var (after, outcome) := Add(r, applicant, kind, until, reason, origin);
            && Inv(after) && HistoryKept(r.entries, after.entries)
            && (OneActiveEach(r.entries) ==> OneActiveEach(after.entries))
            && (outcome.Done? ==> !Active(r, applicant) && Active(after, applicant))
            && (!outcome.Done? ==> after == r)
            && (forall a :: a != applicant ==> (Active(after, a) <==> Active(r, a)))
  {
    var (after, outcome) := Add(r, applicant, kind, until, reason, origin);
    FirstActiveExact(r.entries, applicant);
    if outcome.Done? {
      CommitAddKeeps(r, applicant, kind, until, reason);
      TellKeeps(CommitAdd(r, applicant, kind, until, reason), Push(applicant, true));
      if OneActiveEach(r.entries) {
        SecondEntryIff(r, applicant, kind, until, reason);
      }
    }
  }

  /**
   * Exactly which entries are accepted: for a live applicant with none in force, with an
   * end date if and only if it is temporary; and what every other one is told.
   */
  lemma AddAnswers(r: Register, applicant: nat, kind: Kind, until: Option<int>, reason: string, origin: Origin)
    ensures var outcome := Add(r, applicant, kind, until, reason, origin).1;
            var there := applicant < |r.applicants| && !r.applicants[applicant].deleted;
            && (outcome == Done(|r.entries|) <==> there && !Active(r, applicant) && (kind == Temporary <==> until.Some?))
            && (outcome == NotFound <==> !there)
            && (outcome == Invalid <==> there && (kind == Temporary <==> until.None?))
            && (outcome == AlreadyBlacklisted <==> there && Active(r, applicant) && (kind == Temporary <==> until.Some?))
  {
    FirstActiveExact(r.entries, applicant);
  }

  /** An accepted one is entered as it was given, switches its applicant, flags them, and is told to the website if it began here. */
  lemma AddWrites(r: Register, applicant: nat, kind: Kind, until: Option<int>, reason: string, origin: Origin)
    requires OneRowEach(r.flags) && Add(r, applicant, kind, until, reason, origin).1.Done?
    ensures var after := Add(r, applicant, kind, until, reason, origin).0;
            && after.entries == r.entries + [Entry(applicant, kind, until, reason, false)]
            && applicant < |r.applicants|
            && after.applicants == r.applicants[applicant := Applicant(r.applicants[applicant].deleted, true)]
            && (forall a, f :: Flagged(after.flags, a, f) <==> Flagged(r.flags, a, f) || (a == applicant && f == Blacklisted))
            && after.pushed == r.pushed + (if origin == FromCrm then [Push(applicant, true)] else [])
  {
    WithFlagExact(r.flags, applicant, Blacklisted);
  }

  /** What a lift is told. */
  lemma LiftAnswers(r: Register, id: nat, origin: Origin)
    ensures var outcome := Lift(r, id, origin).1;
            && (outcome == NotFound <==> id >= |r.entries|)
            && (outcome == AlreadyLifted <==> id < |r.entries| && r.entries[id].lifted)
            && (outcome == Done(id) <==> id < |r.entries| && !r.entries[id].lifted)
  {
  }

  /** What it writes: the entry is lifted; and if no other is in force, its applicant's switch and flag go, and nobody else's. */
  lemma LiftWrites(r: Register, id: nat, origin: Origin)
    requires Inv(r) && Lift(r, id, origin).1.Done?
    ensures id < |r.entries| && r.entries[id].applicant < |r.applicants|
    ensures var after, applicant := Lift(r, id, origin).0, r.entries[id].applicant;
            && after.entries == r.entries[id := r.entries[id].(lifted := true)]
            && (OtherInForce(r, id) ==> after.applicants == r.applicants && after.flags == r.flags)
            && (!OtherInForce(r, id) ==>
                  && after.applicants == r.applicants[applicant := Applicant(r.applicants[applicant].deleted, false)]
                  && forall a, f :: Flagged(after.flags, a, f) <==> Flagged(r.flags, a, f) && !(a == applicant && f == Blacklisted))
  {
    EntryLifted(r, id);
    FirstActiveExact(r.entries[id := r.entries[id].(lifted := true)], r.entries[id].applicant);
    WithoutFlagExact(r.flags, r.entries[id].applicant, Blacklisted);
  }

  /** What the website is told about its message, and what its block is entered as. */
  lemma HearAnswers(r: Register, who: Option<nat>, block: bool, reason: string)
    ensures var (after, reply) := Hear(r, who, block, reason);
            && (who.None? ==> after == r && reply == Reply(false, None, false))
            && (who.Some? ==> reply == Reply(true, who, Active(r, who.value) != block))
            && (who.Some? && block && !Active(r, who.value) && Matched(r, who).Some? ==>
                  after.entries == r.entries + [Entry(who.value, Permanent, None,
                    if reason == "" then "Account blocked on the NBR website." else reason, false)])
  {
    if who.Some? {
      FirstActiveExact(r.entries, who.value);
    }
  }

  /** Applicants come without an entry, and go and come back with whatever they have. */
  lemma Surroundings(r: Register, a: nat, deleted: bool)
    ensures Next(r, NewApplicant) == r.(applicants := r.applicants + [Applicant(false, false)])
    ensures a < |r.applicants| ==>
              Next(r, SetDeleted(a, deleted)) == r.(applicants := r.applicants[a := Applicant(deleted, r.applicants[a].isBlacklisted)])
  {
  }

  /** Only somebody who is there is matched. */
  lemma MatchedIff(r: Register, who: Option<nat>)
    ensures Matched(r, who) == who <==> who.Some? ==> who.value < |r.applicants| && !r.applicants[who.value].deleted
    ensures Matched(r, who).Some? ==> Matched(r, who) == who
  {
  }

  /** Setting a flag: what is refused, and what is written. */
  lemma FlagSet(r: Register, applicant: nat, flag: Option<Flag>)
    ensures var (after, outcome) := SetFlag(r, applicant, flag);
            && (outcome == Invalid <==> flag.None? || flag == Some(Blacklisted))
            && (outcome == UnknownApplicant <==> flag.Some? && flag != Some(Blacklisted) && applicant >= |r.applicants|)
            && (outcome == FlagExists <==> flag.Some? && flag != Some(Blacklisted) && applicant < |r.applicants|
                                           && Flagged(r.flags, applicant, flag.value))
            && (outcome.Done? ==> after == r.(flags := r.flags + [FlagRow(applicant, flag.value, false)]))
            && (!outcome.Done? ==> after == r)
  {
  }

  /** Removing one: what is refused, and that it is gone afterwards, and no other with it. */
  lemma FlagRemoved(r: Register, applicant: nat, flag: Option<Flag>)
    requires OneRowEach(r.flags)
    ensures var (after, outcome) := RemoveFlag(r, applicant, flag);
            && (outcome == Invalid <==> flag == Some(Blacklisted))
            && (outcome == NotFound <==> flag != Some(Blacklisted) && (flag.None? || !Flagged(r.flags, applicant, flag.value)))
            && (!outcome.Done? ==> after == r)
            && (outcome.Done? ==>
                  && after == r.(flags := after.flags) && |after.flags| == |r.flags|
                  && forall a, f :: Flagged(after.flags, a, f) <==> Flagged(r.flags, a, f) && !(a == applicant && flag == Some(f)))
  {
    if flag.Some? {
      WithoutFlagExact(r.flags, applicant, flag.value);
    }
  }

  lemma TellKeeps(r: Register, push: Push)
    requires Inv(r)
    ensures Inv(Tell(r, push)) && Tell(r, push).entries == r.entries
    ensures forall a :: Active(Tell(r, push), a) <==> Active(r, a)
  {
    SameEntriesSameActive(r, Tell(r, push));
    AgreeAgain(r, Tell(r, push));
  }

  /** Agreement is a matter of applicants, entries and flags. */
  lemma AgreeAgain(before: Register, after: Register)
    requires Inv(before) && after == before.(pushed := after.pushed)
    ensures Inv(after)
  {
    forall a | 0 <= a < |after.applicants|
      ensures Agree(after, a)
    {
      assert Agree(before, a);
    }
  }

  /** One more unlifted entry makes its applicant active and nobody else. */
  lemma EntryAppended(before: Register, after: Register)
    requires |after.entries| == |before.entries| + 1 && before.entries == after.entries[..|before.entries|]
    requires !after.entries[|before.entries|].lifted
    ensures forall a :: Active(after, a) <==> Active(before, a) || a == after.entries[|before.entries|].applicant
  {
  }

  /** The other applicants' agreement is carried over. */
  lemma AgreeAfter(before: Register, after: Register, applicant: nat)
    requires Inv(before) && applicant < |before.applicants| == |after.applicants|
    requires forall a :: 0 <= a < |before.applicants| && a != applicant ==>
               && after.applicants[a] == before.applicants[a]
               && (Active(after, a) <==> Active(before, a))
               && (Flagged(after.flags, a, Blacklisted) <==> Flagged(before.flags, a, Blacklisted))
    requires Agree(after, applicant)
    ensures forall a :: 0 <= a < |after.applicants| ==> Agree(after, a)
  {
    forall a | 0 <= a < |after.applicants|
      ensures Agree(after, a)
    {
      assert Agree(before, a);
    }
  }

  /** Another entry of the same applicant is in force. */
  predicate OtherInForce(r: Register, id: nat)
    requires id < |r.entries|
  {
    exists i :: 0 <= i < |r.entries| && i != id && r.entries[i].applicant == r.entries[id].applicant && !r.entries[i].lifted
  }

  lemma EntryLifted(r: Register, id: nat)
    requires id < |r.entries|
    ensures var after := r.(entries := r.entries[id := r.entries[id].(lifted := true)]);
            && (Active(after, r.entries[id].applicant) <==> OtherInForce(r, id))
            && (OneActiveEach(r.entries) ==> OneActiveEach(after.entries))
            && forall a :: a != r.entries[id].applicant ==> (Active(after, a) <==> Active(r, a))
  {
    var after := r.(entries := r.entries[id := r.entries[id].(lifted := true)]);
    assert forall i :: 0 <= i < |r.entries| && i != id ==> after.entries[i] == r.entries[i];
    if OtherInForce(r, id) {
      var i :| 0 <= i < |r.entries| && i != id && r.entries[i].applicant == r.entries[id].applicant && !r.entries[i].lifted;
      assert after.entries[i] == r.entries[i];
    }
    forall a | a != r.entries[id].applicant
      ensures Active(after, a) <==> Active(r, a)
    {
      if Active(r, a) {
        var i :| 0 <= i < |r.entries| && r.entries[i].applicant == a && !r.entries[i].lifted;
        assert after.entries[i] == r.entries[i];
      }
    }
  }

  /**
   * However late the transaction of a lift comes, also when the entry has been lifted
   * meanwhile, the three places agree after it; and its applicant is unblocked in all of
   * them exactly when no other entry is in force.
   */
  lemma CommitLiftKeeps(r: Register, id: nat)
    requires Inv(r) && id < |r.entries|
    ensures var after := CommitLift(r, id);
            && Inv(after) && HistoryKept(r.entries, after.entries)
            && (OneActiveEach(r.entries) ==> OneActiveEach(after.entries))
            && (Active(after, r.entries[id].applicant) <==> OtherInForce(r, id))
            && forall a :: a != r.entries[id].applicant ==> (Active(after, a) <==> Active(r, a))
  {
    var after, applicant := CommitLift(r, id), r.entries[id].applicant;
    var lifted := r.(entries := r.entries[id := r.entries[id].(lifted := true)]);
    EntryLifted(r, id);
    FirstActiveExact(lifted.entries, applicant);
    SameEntriesSameActive(lifted, after);
    WithoutFlagExact(r.flags, applicant, Blacklisted);
    StillActive(r, id);
    assert Agree(r, applicant);
    AgreeAfter(r, after, applicant);
  }

  lemma StillActive(r: Register, id: nat)
    requires id < |r.entries|
    ensures OtherInForce(r, id) ==> Active(r, r.entries[id].applicant)
  {
  }

  /** A lift unblocks, and tells the website, exactly when no other entry is in force. */
  lemma LiftKeeps(r: Register, id: nat, origin: Origin)
    requires Inv(r)
    ensures var (after, outcome) := Lift(r, id, origin);
            && Inv(after) && HistoryKept(r.entries, after.entries)
            && (OneActiveEach(r.entries) ==> OneActiveEach(after.entries))
            && (!outcome.Done? ==> after == r)
            && (outcome.Done? ==>
                  && (Active(after, r.entries[id].applicant) <==> OtherInForce(r, id))
                  && after.pushed == r.pushed + (if origin == FromCrm && !OtherInForce(r, id)
                                                 then [Push(r.entries[id].applicant, false)] else [])
                  && forall a :: a != r.entries[id].applicant ==> (Active(after, a) <==> Active(r, a)))
  {
    var (after, outcome) := Lift(r, id, origin);
    if outcome.Done? {
      var committed := CommitLift(r, id);
      CommitLiftKeeps(r, id);
      FirstActiveExact(committed.entries, r.entries[id].applicant);
      TellKeeps(committed, Push(r.entries[id].applicant, false));
    }
  }

  lemma SameEntriesSameActive(before: Register, after: Register)
    requires before.entries == after.entries
    ensures forall a :: Active(after, a) <==> Active(before, a)
  {
  }

  lemma FlagsKeep(r: Register, applicant: nat, flag: Option<Flag>)
    requires Inv(r)
    ensures Inv(SetFlag(r, applicant, flag).0) && Inv(RemoveFlag(r, applicant, flag).0)
  {
    if flag.Some? {
      WithFlagExact(r.flags, applicant, flag.value);
      WithoutFlagExact(r.flags, applicant, flag.value);
      FlagsOnly(r, SetFlag(r, applicant, flag).0);
      FlagsOnly(r, RemoveFlag(r, applicant, flag).0);
    }
  }

  lemma FlagsOnly(before: Register, after: Register)
    requires Inv(before) && after == before.(flags := after.flags)
    requires forall a :: Flagged(after.flags, a, Blacklisted) <==> Flagged(before.flags, a, Blacklisted)
    ensures forall a :: 0 <= a < |after.applicants| ==> Agree(after, a)
  {
    SameEntriesSameActive(before, after);
    forall a | 0 <= a < |after.applicants|
      ensures Agree(after, a)
    {
      assert Agree(before, a);
    }
  }

  lemma AloneInForce(r: Register, id: nat)
    requires OneActiveEach(r.entries) && id < |r.entries| && !r.entries[id].lifted
    ensures !OtherInForce(r, id)
  {
  }

  /** What a website message does, whether or not it changes anything. */
  lemma HearKeeps(r: Register, who: Option<nat>, block: bool, reason: string)
    requires Inv(r) && OneActiveEach(r.entries)
    ensures var (after, reply) := Hear(r, who, block, reason);
            && Inv(after) && OneActiveEach(after.entries) && HistoryKept(r.entries, after.entries)
            && after.pushed == r.pushed
            && (reply.changed ==> who.Some? && Active(r, who.value) != block)
            && (who.Some? && Active(r, who.value) == block ==> after == r)
            && (who.Some? && who.value < |r.applicants| && !r.applicants[who.value].deleted ==>
                  (Active(after, who.value) <==> block))
            && (forall a: nat :: who != Some(a) ==> (Active(after, a) <==> Active(r, a)))
  {
    if who.Some? {
      var applicant := who.value;
      FirstActiveExact(r.entries, applicant);
      if FirstActive(r.entries, applicant).Some? {
        LiftKeeps(r, FirstActive(r.entries, applicant).value, FromWebsite);
        AloneInForce(r, FirstActive(r.entries, applicant).value);
      } else {
        AddKeeps(r, applicant, Permanent, None, if reason == "" then WEBSITE_BLOCK_DETAIL else reason, FromWebsite);
      }
    }
  }

  lemma ApplicantsKeep(r: Register, step: Step)
    requires Inv(r) && (step.NewApplicant? || step.SetDeleted?)
    ensures Inv(Next(r, step))
  {
    var after := Next(r, step);
    SameEntriesSameActive(r, after);
    forall a | 0 <= a < |after.applicants|
      ensures Agree(after, a)
    {
      if a < |r.applicants| {
        assert Agree(r, a);
      }
    }
  }

  lemma NextKeeps(r: Register, step: Step)
    requires Inv(r) && OneActiveEach(r.entries)
    ensures Inv(Next(r, step)) && OneActiveEach(Next(r, step).entries)
    ensures HistoryKept(r.entries, Next(r, step).entries)
  {
    match step
    case Blacklist(a, kind, until, reason) => AddKeeps(r, a, kind, until, reason, FromCrm);
    case LiftEntry(id) => LiftKeeps(r, id, FromCrm);
    case Website(who, block, reason) => HearKeeps(r, Matched(r, who), block, reason);
    case Raise(a, flag) => FlagsKeep(r, a, flag);
    case Clear(a, flag) => FlagsKeep(r, a, flag);
    case _ => ApplicantsKeep(r, step);
  }

  // ── The website ────────────────────────────────────────────────────────────

  /** Whose accounts the website has blocked, after these pushes. */
  function Told(site: set<nat>, pushes: seq<Push>): set<nat> {
    if pushes == [] then site
    else
      var before, last := Told(site, pushes[..|pushes| - 1]), pushes[|pushes| - 1];
      if last.block then before + {last.applicant} else before - {last.applicant}
  }

  /** The website flips its own switch and says so, or the CRM acts and its pushes arrive. */
  function Both(r: Register, site: set<nat>, step: Step): (Register, set<nat>) {
    var after := Next(r, step);
    match step
    case Website(who, block, reason) =>
      (after, match Matched(r, who)
              case None => site
              case Some(a) => if block then site + {a} else site - {a})
    case _ => (after, if |after.pushed| >= |r.pushed| then Told(site, after.pushed[|r.pushed|..]) else site)
  }

  function RunBoth(r: Register, site: set<nat>, steps: seq<Step>): (Register, set<nat>) {
    if steps == [] then (r, site)
    else
      var (before, told) := RunBoth(r, site, steps[..|steps| - 1]);
      Both(before, told, steps[|steps| - 1])
  }

  ghost predicate SiteAgrees(r: Register, site: set<nat>) {
    forall a :: a in site <==> Active(r, a)
  }

  /** One push arriving brings the website to where the CRM just went. */
  lemma PushArrives(r: Register, after: Register, site: set<nat>, push: Push)
    requires SiteAgrees(r, site) && after.pushed == r.pushed + [push]
    requires Active(after, push.applicant) == push.block
    requires forall a: nat :: a != push.applicant ==> (Active(after, a) <==> Active(r, a))
    ensures SiteAgrees(after, Told(site, after.pushed[|r.pushed|..]))
  {
  }

  lemma NothingSent(r: Register, after: Register, site: set<nat>)
    requires SiteAgrees(r, site) && after.pushed == r.pushed && after.entries == r.entries
    ensures SiteAgrees(after, Told(site, after.pushed[|r.pushed|..]))
  {
  }

  lemma BothAgree(r: Register, site: set<nat>, step: Step)
    requires Inv(r) && OneActiveEach(r.entries) && SiteAgrees(r, site)
    ensures SiteAgrees(Both(r, site, step).0, Both(r, site, step).1)
  {
    match step
    case Website(who, block, reason) => HearKeeps(r, Matched(r, who), block, reason);
    case Blacklist(a, kind, until, reason) =>
      AddKeeps(r, a, kind, until, reason, FromCrm);
      if Add(r, a, kind, until, reason, FromCrm).1.Done? {
        PushArrives(r, Next(r, step), site, Push(a, true));
      } else {
        NothingSent(r, r, site);
      }
    case LiftEntry(id) =>
      LiftKeeps(r, id, FromCrm);
      if Lift(r, id, FromCrm).1.Done? {
        AloneInForce(r, id);
        PushArrives(r, Next(r, step), site, Push(r.entries[id].applicant, false));
      } else {
        NothingSent(r, r, site);
      }
    case _ => NothingSent(r, Next(r, step), site);
  }

  /**
   * When every request is over, and its message has arrived, before the next one begins,
   * the website and the CRM always block the same people, by one entry each.
   */
  lemma {:induction false} WebsiteStaysInStep(r: Register, site: set<nat>, steps: seq<Step>)
    requires Inv(r) && OneActiveEach(r.entries) && SiteAgrees(r, site)
    ensures var (end, told) := RunBoth(r, site, steps);
            end == Run(r, steps) && Inv(end) && OneActiveEach(end.entries) && SiteAgrees(end, told)
  {
    if steps != [] {
      WebsiteStaysInStep(r, site, steps[..|steps| - 1]);
      var (before, told) := RunBoth(r, site, steps[..|steps| - 1]);
      NextKeeps(before, steps[|steps| - 1]);
      BothAgree(before, told, steps[|steps| - 1]);
    }
  }

  // ── The code ───────────────────────────────────────────────────────────────

  class Service {
    var applicants: seq<Applicant>
    var entries: seq<Entry>
    var flags: seq<FlagRow>
    var pushed: seq<Push>

    constructor ()
      ensures View() == EMPTY
    {
      applicants, entries, flags, pushed := [], [], [], [];
    }

    function View(): Register
      reads this
    {
      Register(applicants, entries, flags, pushed)
    }

    method FindActive(applicant: nat) returns (id: Option<nat>)
      ensures id == FirstActive(entries, applicant)
    {
      id := None;
      for i := 0 to |entries|
        invariant id == FirstActive(entries[..i], applicant)
      {
        assert entries[..i + 1][..i] == entries[..i];
        if id.None? && entries[i].applicant == applicant && !entries[i].lifted {
          id := Some(i);
        }
      }
      assert entries[..|entries|] == entries;
    }

    method IsFlagged(applicant: nat, flag: Flag) returns (found: bool)
      ensures found == Flagged(flags, applicant, flag)
    {
      found := false;
      for i := 0 to |flags|
        invariant found <==> exists j :: 0 <= j < i && flags[j] == FlagRow(applicant, flag, false)
      {
        found := found || flags[i] == FlagRow(applicant, flag, false);
      }
    }

    method RemoveRows(applicant: nat, flag: Flag) returns (updated: nat)
      modifies `flags
      ensures flags == WithoutFlag(old(flags), applicant, flag)
      ensures updated == 0 <==> !Flagged(old(flags), applicant, flag)
    {
      ghost var was := flags;
      updated := 0;
      for i := 0 to |flags|
        invariant |flags| == |was|
        invariant forall j :: 0 <= j < |flags| ==>
                    flags[j] == if j < i then WithoutFlag(was, applicant, flag)[j] else was[j]
        invariant updated == 0 <==> forall j :: 0 <= j < i ==> was[j] != FlagRow(applicant, flag, false)
      {
        if flags[i].applicant == applicant && flags[i].flag == flag && !flags[i].removed {
          flags := flags[i := flags[i].(removed := true)];
          updated := updated + 1;
        }
      }
    }

    /** What an add finds when it looks. */
    method LookToAdd(applicant: nat, kind: Kind, until: Option<int>) returns (refusal: Option<Outcome>)
      ensures refusal == AddRefusal(View(), applicant, kind, until)
    {
      if applicant >= |applicants| || applicants[applicant].deleted {
        return Some(NotFound);
      }
      if kind == Temporary && until.None? {
        return Some(Invalid);
      }
      if kind == Permanent && until.Some? {
        return Some(Invalid);
      }
      var active := FindActive(applicant);
      return if active.Some? then Some(AlreadyBlacklisted) else None;
    }

    /** The transaction of an add: entry, switch, flag. */
    method InsertEntry(applicant: nat, kind: Kind, until: Option<int>, reason: string) returns (id: nat)
      requires applicant < |applicants|
      modifies this
      ensures View() == CommitAdd(old(View()), applicant, kind, until, reason)
      ensures id == |old(entries)|
    {
      id := |entries|;
      entries := entries + [Entry(applicant, kind, until, reason, false)];
      applicants := applicants[applicant := applicants[applicant].(isBlacklisted := true)];
      var already := IsFlagged(applicant, Blacklisted);
      if !already {
        flags := flags + [FlagRow(applicant, Blacklisted, false)];
      }
    }

    /** The transaction of a lift: entry, then switch and flag if nothing else is in force. */
    method ReleaseEntry(id: nat)
      requires id < |entries| && entries[id].applicant < |applicants|
      modifies this
      ensures View() == CommitLift(old(View()), id)
    {
      var applicant := entries[id].applicant;
      entries := entries[id := entries[id].(lifted := true)];
      var remaining := FindActive(applicant);
      if remaining.None? {
        applicants := applicants[applicant := applicants[applicant].(isBlacklisted := false)];
        var _ := RemoveRows(applicant, Blacklisted);
      }
    }

    /** The push after the transaction; before unblocking an account the register is looked at again. */
    method TellWebsite(push: Push)
      modifies `pushed
      ensures View() == Tell(old(View()), push)
    {
      if !push.block {
        var stillBlocked := FindActive(push.applicant);
        if stillBlocked.Some? {
          return;
        }
      }
      pushed := pushed + [push];
    }

    method AddEntry(applicant: nat, kind: Kind, until: Option<int>, reason: string, origin: Origin)
      returns (outcome: Outcome)
      modifies this
      ensures View() == Add(old(View()), applicant, kind, until, reason, origin).0
      ensures outcome == Add(old(View()), applicant, kind, until, reason, origin).1
    {
      var refusal := LookToAdd(applicant, kind, until);
      if refusal.Some? {
        return refusal.value;
      }
      var id := InsertEntry(applicant, kind, until, reason);
      if origin == FromCrm {
        TellWebsite(Push(applicant, true));
      }
      return Done(id);
    }

    method LiftEntry(id: nat, origin: Origin) returns (outcome: Outcome)
      requires forall i :: 0 <= i < |entries| ==> entries[i].applicant < |applicants|
      modifies this
      ensures View() == Lift(old(View()), id, origin).0
      ensures outcome == Lift(old(View()), id, origin).1
    {
      if id >= |entries| {
        return NotFound;
      }
      if entries[id].lifted {
        return AlreadyLifted;
      }
      var applicant := entries[id].applicant;
      ReleaseEntry(id);
      if origin == FromCrm {
        TellWebsite(Push(applicant, false));
      }
      return Done(id);
    }

    method ApplyFromWebsite(who: Option<nat>, block: bool, reason: string) returns (reply: Reply)
      requires forall i :: 0 <= i < |entries| ==> entries[i].applicant < |applicants|
      modifies this
      ensures View() == Hear(old(View()), who, block, reason).0
      ensures reply == Hear(old(View()), who, block, reason).1
    {
      if who.None? {
        return Reply(false, None, false);
      }
      var active := FindActive(who.value);
      if block {
        if active.Some? {
          return Reply(true, who, false);
        }
        var _ := AddEntry(who.value, Permanent, None, if reason == "" then WEBSITE_BLOCK_DETAIL else reason, FromWebsite);
        return Reply(true, who, true);
      }
      if active.None? {
        return Reply(true, who, false);
      }
      var _ := LiftEntry(active.value, FromWebsite);
      return Reply(true, who, true);
    }

    method SetRestriction(applicant: nat, flag: Option<Flag>) returns (outcome: Outcome)
      modifies `flags
      ensures View() == SetFlag(old(View()), applicant, flag).0
      ensures outcome == SetFlag(old(View()), applicant, flag).1
    {
      if flag.None? || flag.value == Blacklisted {
        return Invalid;
      }
      if applicant >= |applicants| {
        return UnknownApplicant;
      }
      var already := IsFlagged(applicant, flag.value);
      if already {
        return FlagExists;
      }
      outcome := Done(|flags|);
      flags := flags + [FlagRow(applicant, flag.value, false)];
    }

    method RemoveRestriction(applicant: nat, flag: Option<Flag>) returns (outcome: Outcome)
      modifies `flags
      ensures View() == RemoveFlag(old(View()), applicant, flag).0
      ensures outcome == RemoveFlag(old(View()), applicant, flag).1
    {
      if flag == Some(Blacklisted) {
        return Invalid;
      }
      if flag.None? {
        return NotFound;
      }
      ghost var was := flags;
      var updated := RemoveRows(applicant, flag.value);
      if updated == 0 {
        assert flags == was;
        return NotFound;
      }
      return Done(0);
    }
  }
}
