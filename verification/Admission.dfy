/**
  Beta admission: issuing, revoking and spending invitations, and registration, which creates the account
  first and takes it back when the admission is refused.
*/
module Admission {
  import opened Options

  type Time = int
  const INVITATION_LIFETIME := 30 * 86400

  // ----- addresses -----

  predicate IsSpace(c: char) {
    c == ' ' || c == '\t' || c == '\n' || c == '\r'
  }

  function Strip(s: string): string {
    if s != "" && IsSpace(s[0]) then Strip(s[1..])
    else if s != "" && IsSpace(s[|s| - 1]) then Strip(s[..|s| - 1])
    else s
  }

  function LowerChar(c: char): char {
    if 'A' <= c <= 'Z' then (c as int + 32) as char else c
  }

  function Lower(s: string): string {
    seq(|s|, i requires 0 <= i < |s| => LowerChar(s[i]))
  }

  /** How invitations are looked up, and what their unique constraint indexes. */
  function Address(email: string): string {
    Lower(Strip(email))
  }

  // ----- rows -----

  datatype Invitation = Invitation(
    email: string, expiresAt: Time, revokedAt: Option<Time>, consumedAt: Option<Time>, consumedBy: Option<nat>)

  datatype AuditAction = Issued | Revoked | Consumed
  datatype AuditRow = AuditRow(action: AuditAction, address: string)

  /** Accounts hold the lowercased address; invitations are unique by lowercased address. */
  datatype Registry = Registry(accounts: map<nat, string>, invitations: map<string, Invitation>, audit: seq<AuditRow>)

  datatype Answer =
    | Registered(user: nat) | AccountCreated(user: nat) | InvitationIssued | InvitationRevoked | AlreadyRevoked
    | NoEmail | EmailAlreadyRegistered | InvitationNotFound | InvitationNotUsable | InvitationAlreadyConsumed
    | NotPermitted | NotAuditable

  predicate Taken(accounts: map<nat, string>, email: string) {
    exists u :: u in accounts && Lower(accounts[u]) == Lower(email)
  }

  /** `create_account`, as management commands and the admin site call it; `user` is the fresh primary key. */
  function CreateAccount(r: Registry, user: nat, email: string): (Registry, Answer) {
    if email == "" then (r, NoEmail)
    else if user in r.accounts || Taken(r.accounts, Lower(email)) then (r, EmailAlreadyRegistered)
    else (r.(accounts := r.accounts[user := Lower(email)]), AccountCreated(user))
  }

  predicate Usable(i: Invitation, now: Time) {
    i.consumedAt.None? && i.revokedAt.None? && i.expiresAt > now
  }

  /** `consume_invitation`: the address comes from the account; the conditional update spends one row. */
  function Consume(r: Registry, user: nat, now: Time): (Registry, Answer)
    requires user in r.accounts
  {
    var address := Address(r.accounts[user]);
    if Strip(r.accounts[user]) == "" || address !in r.invitations then (r, InvitationNotFound)
    else if !Usable(r.invitations[address], now) then (r, InvitationNotUsable)
    else
      var spent := r.invitations[address].(consumedAt := Some(now), consumedBy := Some(user));
      (r.(invitations := r.invitations[address := spent], audit := r.audit + [AuditRow(Consumed, address)]),
       Registered(user))
  }

  /** `register_account`: one transaction, so a refused admission takes the account back. */
  function Register(r: Registry, user: nat, email: string, invitationRequired: bool, now: Time): (Registry, Answer) {
    var (created, answer) := CreateAccount(r, user, email);
    if answer != AccountCreated(user) then (r, answer)
    else if !invitationRequired then (created, answer)
    else
      var (admitted, verdict) := Consume(created, user, now);
      if verdict == Registered(user) then (admitted, verdict) else (r, verdict)
  }

  /** `issue_invitation`. */
  function Issue(r: Registry, administrator: bool, email: string, reasonGiven: bool, now: Time): (Registry, Answer) {
    var address := Address(email);
    if !administrator then (r, NotPermitted)
    else if Strip(email) == "" then (r, InvitationNotFound)
    else if address in r.invitations && r.invitations[address].consumedAt.Some? then (r, InvitationAlreadyConsumed)
    else if !reasonGiven then (r, NotAuditable)
    else
      var expires := now + INVITATION_LIFETIME;
      var open := if address in r.invitations
                  then r.invitations[address].(email := Strip(email), expiresAt := expires, revokedAt := None)
                  else Invitation(Strip(email), expires, None, None, None);
      (r.(invitations := r.invitations[address := open], audit := r.audit + [AuditRow(Issued, address)]),
       InvitationIssued)
  }

  /** `revoke_invitation`. */
  function Revoke(r: Registry, administrator: bool, email: string, reasonGiven: bool, now: Time): (Registry, Answer) {
    var address := Address(email);
    if !administrator then (r, NotPermitted)
    else if address !in r.invitations then (r, InvitationNotFound)
    else if r.invitations[address].consumedAt.Some? then (r, InvitationAlreadyConsumed)
    else if r.invitations[address].revokedAt.Some? then (r, AlreadyRevoked)
    else if !reasonGiven then (r, NotAuditable)
    else
      var closed := r.invitations[address].(revokedAt := Some(now));
      (r.(invitations := r.invitations[address := closed], audit := r.audit + [AuditRow(Revoked, address)]),
       InvitationRevoked)
  }

  datatype Op =
    | CreateOp(user: nat, email: string)
    | RegisterOp(user: nat, email: string, invitationRequired: bool, now: Time)
    | IssueOp(administrator: bool, email: string, reasonGiven: bool, now: Time)
    | RevokeOp(administrator: bool, email: string, reasonGiven: bool, now: Time)

  function Step(r: Registry, op: Op): (Registry, Answer) {
    match op
    case CreateOp(user, email) => CreateAccount(r, user, email)
    case RegisterOp(user, email, required, now) => Register(r, user, email, required, now)
    case IssueOp(administrator, email, reasonGiven, now) => Issue(r, administrator, email, reasonGiven, now)
    case RevokeOp(administrator, email, reasonGiven, now) => Revoke(r, administrator, email, reasonGiven, now)
  }

  function Run(ops: seq<Op>): Registry {
    if ops == [] then Registry(map[], map[], []) else Step(Run(ops[..|ops| - 1]), ops[|ops| - 1]).0
  }

  function AnswerAt(ops: seq<Op>, i: nat): Answer
    requires i < |ops|
  {
    Step(Run(ops[..i]), ops[i]).1
  }

  // ----- the services, writing in place -----

  class Desk {
    var accounts: map<nat, string>
    var invitations: map<string, Invitation>
    var audit: seq<AuditRow>

    function View(): Registry
      reads this
    {
      Registry(accounts, invitations, audit)
    }

    constructor ()
      ensures View() == Run([])
    {
      accounts, invitations, audit := map[], map[], [];
    }

    method Create(user: nat, email: string) returns (answer: Answer)
      modifies this`accounts
      ensures (View(), answer) == CreateAccount(old(View()), user, email)
    {
      if email == "" {
        return NoEmail;
      }
      var stored := Lower(email);
      if user in accounts || Taken(accounts, stored) {
        return EmailAlreadyRegistered;
      }
      accounts := accounts[user := stored];
      answer := AccountCreated(user);
    }

    method ConsumeInvitation(user: nat, now: Time) returns (answer: Answer)
      requires user in accounts
      modifies this`invitations, this`audit
      ensures (View(), answer) == Consume(old(View()), user, now)
    {
      var address := Address(accounts[user]);
      if Strip(accounts[user]) == "" {
        return InvitationNotFound;
      }
      if address in invitations && Usable(invitations[address], now) {
        invitations := invitations[address :=
          invitations[address].(consumedAt := Some(now), consumedBy := Some(user))];
        audit := audit + [AuditRow(Consumed, address)];
        return Registered(user);
      }
      if address !in invitations {
        return InvitationNotFound;
      }
      answer := InvitationNotUsable;
    }

    method RegisterAccount(user: nat, email: string, invitationRequired: bool, now: Time) returns (answer: Answer)
      modifies this
      ensures (View(), answer) == Register(old(View()), user, email, invitationRequired, now)
    {
      var savepoint := accounts;
      answer := Create(user, email);
      if answer == AccountCreated(user) && invitationRequired {
        answer := ConsumeInvitation(user, now);
        if answer != Registered(user) {
          accounts := savepoint;
        }
      }
    }

    method IssueInvitation(administrator: bool, email: string, reasonGiven: bool, now: Time) returns (answer: Answer)
      modifies this`invitations, this`audit
      ensures (View(), answer) == Issue(old(View()), administrator, email, reasonGiven, now)
    {
      if !administrator {
        return NotPermitted;
      }
      var normalised := Strip(email);
      if normalised == "" {
        return InvitationNotFound;
      }
      var address := Address(email);
      var savepoint := invitations;
      if address !in invitations {
        invitations := invitations[address := Invitation(normalised, now + INVITATION_LIFETIME, None, None, None)];
      } else {
        if invitations[address].consumedAt.Some? {
          return InvitationAlreadyConsumed;
        }
        invitations := invitations[address :=
          invitations[address].(email := normalised, expiresAt := now + INVITATION_LIFETIME, revokedAt := None)];
      }
      if !reasonGiven {
        invitations := savepoint;
        return NotAuditable;
      }
      audit := audit + [AuditRow(Issued, address)];
      answer := InvitationIssued;
    }

    method RevokeInvitation(administrator: bool, email: string, reasonGiven: bool, now: Time) returns (answer: Answer)
      modifies this`invitations, this`audit
      ensures (View(), answer) == Revoke(old(View()), administrator, email, reasonGiven, now)
    {
      if !administrator {
        return NotPermitted;
      }
      var address := Address(email);
      if address !in invitations {
        return InvitationNotFound;
      }
      if invitations[address].consumedAt.Some? {
        return InvitationAlreadyConsumed;
      }
      if invitations[address].revokedAt.Some? {
        return AlreadyRevoked;
      }
      if !reasonGiven {
        return NotAuditable;
      }
      invitations := invitations[address := invitations[address].(revokedAt := Some(now))];
      audit := audit + [AuditRow(Revoked, address)];
      answer := InvitationRevoked;
    }
  }

  // ----- every run -----

  predicate Succeeded(answer: Answer) {
    answer.Registered? || answer.AccountCreated? || answer == InvitationIssued || answer == InvitationRevoked
  }

  /** A refusal of any kind, and revoking what is revoked, leave accounts, invitations and audit rows as they were. */
  lemma RefusalsChangeNothing(r: Registry, op: Op)
    ensures !Succeeded(Step(r, op).1) ==> Step(r, op).0 == r
  {
    hide Strip, Lower;
  }

  /** The rows agree with each other: a spent invitation names the account at its own address. */
  ghost predicate SpentSoundly(r: Registry, address: string)
    requires address in r.invitations
  {
    var i := r.invitations[address];
    && (i.consumedAt.Some? <==> i.consumedBy.Some?)
    && (i.consumedBy.Some? ==> i.consumedBy.value in r.accounts && Address(r.accounts[i.consumedBy.value]) == address)
  }

  ghost predicate Sound(r: Registry) {
    forall address :: address in r.invitations ==> SpentSoundly(r, address)
  }

  predicate IsSpent(r: Registry, address: string) {
    address in r.invitations && r.invitations[address].consumedAt.Some?
  }

  lemma StepKeepsSound(r: Registry, op: Op)
    requires Sound(r)
    ensures Sound(Step(r, op).0)
  {
    hide Strip, Lower, Address, Taken;
    var after := Step(r, op).0;
    AccountsStay(r, op);
    forall address | address in after.invitations
      ensures SpentSoundly(after, address)
    {
      assert address in r.invitations ==> SpentSoundly(r, address);
    }
  }

  lemma AccountsStay(r: Registry, op: Op)
    ensures forall u :: u in r.accounts ==> u in Step(r, op).0.accounts && Step(r, op).0.accounts[u] == r.accounts[u]
  {
    hide Strip, Lower, Address, Taken;
  }

  lemma {:induction false} EveryRunIsSound(ops: seq<Op>)
    ensures Sound(Run(ops))
  {
    hide Step, Sound;
    if ops == [] {
      NobodyIsSound();
    } else {
      EveryRunIsSound(ops[..|ops| - 1]);
      StepKeepsSound(Run(ops[..|ops| - 1]), ops[|ops| - 1]);
    }
  }

  lemma NobodyIsSound()
    ensures Sound(Registry(map[], map[], []))
  {
  }

  lemma RunNext(ops: seq<Op>, i: nat)
    requires i < |ops|
    ensures Run(ops[..i + 1]) == Step(Run(ops[..i]), ops[i]).0
  {
    hide Step;
    assert ops[..i + 1][..i] == ops[..i];
  }

  lemma SpentStays(r: Registry, op: Op, address: string)
    requires IsSpent(r, address)
    ensures address in Step(r, op).0.invitations && Step(r, op).0.invitations[address] == r.invitations[address]
  {
    hide Strip, Lower, Address, Taken;
  }

  /** A spent invitation is frozen for ever. */
  lemma {:induction false} SpentForEver(ops: seq<Op>, i: nat, j: nat, address: string)
    requires i <= j <= |ops| && IsSpent(Run(ops[..i]), address)
    ensures IsSpent(Run(ops[..j]), address)
    ensures Run(ops[..j]).invitations[address] == Run(ops[..i]).invitations[address]
    decreases j
  {
    hide Step, Run;
    if i < j {
      SpentForEver(ops, i, j - 1, address);
      RunNext(ops, j - 1);
      SpentStays(Run(ops[..j - 1]), ops[j - 1], address);
    }
  }

  // ----- gated accounts and spent invitations -----

  /** Step `i` registers `user` with the gate on. */
  ghost predicate Admits(ops: seq<Op>, i: nat, user: nat)
    requires i < |ops|
  {
    ops[i].RegisterOp? && ops[i].invitationRequired && AnswerAt(ops, i) == Registered(user)
  }

  lemma AdmissionSpends(r: Registry, op: Op, user: nat)
    requires op.RegisterOp? && op.invitationRequired && Step(r, op).1 == Registered(user)
    ensures op.user == user && user !in r.accounts && user in Step(r, op).0.accounts
    ensures var address := Address(Lower(op.email));
            && Step(r, op).0.accounts[user] == Lower(op.email)
            && address in r.invitations && Usable(r.invitations[address], op.now)
            && IsSpent(Step(r, op).0, address) && Step(r, op).0.invitations[address].consumedBy == Some(user)
            && Step(r, op).0.invitations[address].consumedAt == Some(op.now)
  {
    hide Strip, Lower, Address, Taken;
  }

  lemma SpentOnlyByAdmission(r: Registry, op: Op, address: string)
    requires !IsSpent(r, address) && IsSpent(Step(r, op).0, address)
    ensures op.RegisterOp? && op.invitationRequired && Step(r, op).1 == Registered(op.user)
    ensures Step(r, op).0.invitations[address].consumedBy == Some(op.user)
  {
    hide Strip, Lower, Address, Taken;
  }

  lemma {:induction false} AccountsStayFor(ops: seq<Op>, i: nat, j: nat, user: nat)
    requires i <= j <= |ops| && user in Run(ops[..i]).accounts
    ensures user in Run(ops[..j]).accounts && Run(ops[..j]).accounts[user] == Run(ops[..i]).accounts[user]
    decreases j
  {
    hide Step, Run;
    if i < j {
      AccountsStayFor(ops, i, j - 1, user);
      RunNext(ops, j - 1);
      AccountsStay(Run(ops[..j - 1]), ops[j - 1]);
    }
  }

  /** One way: every account registered under the gate keeps a spent invitation at its own address. */
  lemma {:induction false} AdmittedAccountsHoldTheirInvitation(ops: seq<Op>, i: nat, user: nat)
    requires i < |ops| && Admits(ops, i, user)
    ensures user in Run(ops).accounts && IsSpent(Run(ops), Address(Run(ops).accounts[user]))
    ensures Run(ops).invitations[Address(Run(ops).accounts[user])].consumedBy == Some(user)
  {
    hide Step, Run, Address, Lower;
    AdmissionSpends(Run(ops[..i]), ops[i], user);
    RunNext(ops, i);
    AccountsStayFor(ops, i + 1, |ops|, user);
    SpentForEver(ops, i + 1, |ops|, Address(Lower(ops[i].email)));
    assert ops[..|ops|] == ops;
  }

  /** The other way: every spent invitation was spent by one registration, and by no other. */
  lemma {:induction false} SpentInvitationsAdmittedSomeone(ops: seq<Op>, n: nat, address: string) returns (i: nat)
    requires n <= |ops| && IsSpent(Run(ops[..n]), address)
    ensures i < n && ops[i].RegisterOp? && Admits(ops, i, ops[i].user)
    ensures Run(ops[..n]).invitations[address].consumedBy == Some(ops[i].user)
    decreases n
  {
    hide Step, Address, Lower;
    assert n > 0;
    RunNext(ops, n - 1);
    if IsSpent(Run(ops[..n - 1]), address) {
      SpentStays(Run(ops[..n - 1]), ops[n - 1], address);
      i := SpentInvitationsAdmittedSomeone(ops, n - 1, address);
    } else {
      SpentOnlyByAdmission(Run(ops[..n - 1]), ops[n - 1], address);
      i := n - 1;
    }
  }

  /** An account is registered by one step, and two accounts never share an invitation. */
  lemma {:induction false} AdmissionIsOneToOne(ops: seq<Op>, i: nat, j: nat, user: nat, other: nat)
    requires i < |ops| && j < |ops| && Admits(ops, i, user) && Admits(ops, j, other)
    requires user in Run(ops).accounts && other in Run(ops).accounts
    requires i == j || user == other || Address(Run(ops).accounts[user]) == Address(Run(ops).accounts[other])
    ensures i == j && user == other
  {
    hide Step, Run, Address, Lower;
    AdmittedAccountsHoldTheirInvitation(ops, i, user);
    AdmittedAccountsHoldTheirInvitation(ops, j, other);
    assert user == other;
    AdmissionSpends(Run(ops[..i]), ops[i], user);
    AdmissionSpends(Run(ops[..j]), ops[j], user);
    RunNext(ops, i);
    RunNext(ops, j);
    if i < j {
      AccountsStayFor(ops, i + 1, j, user);
    }
    if j < i {
      AccountsStayFor(ops, j + 1, i, user);
    }
  }

  // ----- the audit trail -----

  function CountRows(audit: seq<AuditRow>, row: AuditRow): nat {
    if audit == [] then 0 else
      CountRows(audit[..|audit| - 1], row) + (if audit[|audit| - 1] == row then 1 else 0)
  }

  lemma CountOneMore(audit: seq<AuditRow>, last: AuditRow, row: AuditRow)
    ensures CountRows(audit + [last], row) == CountRows(audit, row) + (if last == row then 1 else 0)
  {
    assert (audit + [last])[..|audit|] == audit;
  }

  lemma StepAudits(r: Registry, op: Op, address: string)
    ensures CountRows(Step(r, op).0.audit, AuditRow(Consumed, address))
            - CountRows(r.audit, AuditRow(Consumed, address))
         == (if IsSpent(Step(r, op).0, address) then 1 else 0) - (if IsSpent(r, address) then 1 else 0)
  {
    hide Strip, Lower, Address, Taken, CountRows;
    var row := AuditRow(Consumed, address);
    forall last: AuditRow
      ensures CountRows(r.audit + [last], row) == CountRows(r.audit, row) + (if last == row then 1 else 0)
    {
      CountOneMore(r.audit, last, row);
    }
  }

  /** An address has one consumption in the audit trail if its invitation is spent, and none otherwise. */
  lemma {:induction false} ConsumptionIsAuditedOnce(ops: seq<Op>, address: string)
    ensures CountRows(Run(ops).audit, AuditRow(Consumed, address)) == if IsSpent(Run(ops), address) then 1 else 0
  {
    hide Step;
    if ops != [] {
      ConsumptionIsAuditedOnce(ops[..|ops| - 1], address);
      StepAudits(Run(ops[..|ops| - 1]), ops[|ops| - 1], address);
    }
  }

  // ----- which steps are accepted, and what they leave -----

  /** Accounts hold lowercased addresses, and no two the same. */
  ghost predicate AccountsDistinct(r: Registry) {
    && (forall u :: u in r.accounts ==> Lower(r.accounts[u]) == r.accounts[u] != "")
    && (forall u, v :: u in r.accounts && v in r.accounts && r.accounts[u] == r.accounts[v] ==> u == v)
  }

  lemma LowerTwice(s: string)
    ensures Lower(Lower(s)) == Lower(s) && (Lower(s) == "" <==> s == "")
  {
  }

  lemma CreateExactly(r: Registry, user: nat, email: string)
    requires AccountsDistinct(r)
    ensures var (after, answer) := CreateAccount(r, user, email);
            && (answer == AccountCreated(user) <==>
                  email != "" && user !in r.accounts && forall u :: u in r.accounts ==> r.accounts[u] != Lower(email))
            && (answer == AccountCreated(user) ==> after == r.(accounts := r.accounts[user := Lower(email)]))
            && AccountsDistinct(after)
  {
    hide Lower;
    LowerTwice(email);
  }

  lemma AccountsStayDistinct(r: Registry, op: Op)
    requires AccountsDistinct(r)
    ensures AccountsDistinct(Step(r, op).0)
  {
    hide CreateAccount, Consume, AccountsDistinct, Strip, Lower, Address;
    if op.CreateOp? || op.RegisterOp? {
      CreateExactly(r, op.user, op.email);
    }
    OnlyCreationsAddAccounts(r, op);
    SameAccountsDistinct(r, Step(r, op).0);
    SameAccountsDistinct(CreateAccount(r, if op.CreateOp? || op.RegisterOp? then op.user else 0,
                                       if op.CreateOp? || op.RegisterOp? then op.email else "").0, Step(r, op).0);
  }

  lemma SameAccountsDistinct(r: Registry, other: Registry)
    ensures r.accounts == other.accounts ==> (AccountsDistinct(r) <==> AccountsDistinct(other))
  {
  }

  lemma OnlyCreationsAddAccounts(r: Registry, op: Op)
    ensures Step(r, op).0.accounts == r.accounts ||
            ((op.CreateOp? || op.RegisterOp?) &&
             Step(r, op).0.accounts == CreateAccount(r, op.user, op.email).0.accounts)
  {
    hide Strip, Lower, Address, Taken;
  }

  lemma {:induction false} EveryAddressHasOneAccount(ops: seq<Op>)
    ensures AccountsDistinct(Run(ops))
  {
    hide Step;
    if ops != [] {
      EveryAddressHasOneAccount(ops[..|ops| - 1]);
      AccountsStayDistinct(Run(ops[..|ops| - 1]), ops[|ops| - 1]);
    }
  }

  /** Only an administrator with a reason issues or revokes, and never what has admitted somebody. */
  lemma AdministratorsDecide(r: Registry, op: Op)
    ensures Step(r, op).1 == InvitationIssued <==>
            op.IssueOp? && op.administrator && op.reasonGiven && Strip(op.email) != "" && !IsSpent(r, Address(op.email))
    ensures Step(r, op).1 == InvitationRevoked <==>
            op.RevokeOp? && op.administrator && op.reasonGiven && IsOpen(r, Address(op.email))
  {
    hide Strip, Lower, Address, Taken;
  }

  /** Neither spent nor revoked; it may have expired. */
  predicate IsOpen(r: Registry, address: string) {
    address in r.invitations && r.invitations[address].consumedAt.None? && r.invitations[address].revokedAt.None?
  }

  /** Which refusal each step gets, in the order the questions are asked. */
  lemma RefusalsSayWhy(r: Registry, op: Op)
    requires AccountsDistinct(r) && !Succeeded(Step(r, op).1)
    ensures Step(r, op).1 ==
            match op {
              case CreateOp(_, email) => if email == "" then NoEmail else EmailAlreadyRegistered
              case RegisterOp(user, email, _, now) =>
                if email == "" then NoEmail
                else if user in r.accounts || exists u :: u in r.accounts && r.accounts[u] == Lower(email)
                then EmailAlreadyRegistered
                else if Strip(Lower(email)) == "" || Address(Lower(email)) !in r.invitations then InvitationNotFound
                else InvitationNotUsable
              case IssueOp(administrator, email, _, _) =>
                if !administrator then NotPermitted
                else if Strip(email) == "" then InvitationNotFound
                else if IsSpent(r, Address(email)) then InvitationAlreadyConsumed
                else NotAuditable
              case RevokeOp(administrator, email, _, _) =>
                if !administrator then NotPermitted
                else if Address(email) !in r.invitations then InvitationNotFound
                else if IsSpent(r, Address(email)) then InvitationAlreadyConsumed
                else if !IsOpen(r, Address(email)) then AlreadyRevoked
                else NotAuditable
            }
  {
    hide Strip, Lower, Address, AccountsDistinct;
    if op.CreateOp? || op.RegisterOp? {
      LowerTwice(op.email);
      CreateExactly(r, op.user, op.email);
      CreateRefusals(r, op.user, op.email);
      hide CreateAccount;
    }
  }

  lemma CreateRefusals(r: Registry, user: nat, email: string)
    ensures CreateAccount(r, user, email).1 in {NoEmail, EmailAlreadyRegistered, AccountCreated(user)}
    ensures CreateAccount(r, user, email).1 == NoEmail <==> email == ""
  {
    hide Lower, Taken;
  }

  // ----- when an invitation admits -----

  ghost predicate IssuedAt(ops: seq<Op>, i: nat, address: string)
    requires i < |ops|
  {
    ops[i].IssueOp? && Address(ops[i].email) == address && AnswerAt(ops, i) == InvitationIssued
  }

  ghost predicate RevokedAt(ops: seq<Op>, i: nat, address: string)
    requires i < |ops|
  {
    ops[i].RevokeOp? && Address(ops[i].email) == address && AnswerAt(ops, i) == InvitationRevoked
  }

  /** A gated registration at the address. */
  ghost predicate SpentAt(ops: seq<Op>, i: nat, address: string)
    requires i < |ops|
  {
    && ops[i].RegisterOp? && ops[i].invitationRequired && Address(Lower(ops[i].email)) == address
    && AnswerAt(ops, i) == Registered(ops[i].user)
  }

  /** Step `i` issued the address an invitation, and nothing has been decided about it since, before step `n`. */
  ghost predicate StandsFrom(ops: seq<Op>, i: nat, n: nat, address: string)
    requires i < n <= |ops|
  {
    && IssuedAt(ops, i, address)
    && forall k :: i < k < n ==> !IssuedAt(ops, k, address) && !RevokedAt(ops, k, address) && !SpentAt(ops, k, address)
  }

  lemma InvitationStep(r: Registry, op: Op, address: string)
    ensures var after, answer := Step(r, op).0, Step(r, op).1;
            if op.IssueOp? && Address(op.email) == address && answer == InvitationIssued then
              IsOpen(after, address) && after.invitations[address].expiresAt == op.now + 30 * 86400
              && after.invitations[address].email == Strip(op.email)
            else if op.RevokeOp? && Address(op.email) == address && answer == InvitationRevoked then
              address in after.invitations && after.invitations[address].revokedAt == Some(op.now)
            else if op.RegisterOp? && op.invitationRequired && Address(Lower(op.email)) == address
                    && answer == Registered(op.user) then IsSpent(after, address)
            else (address in after.invitations <==> address in r.invitations)
                 && (address in r.invitations ==> after.invitations[address] == r.invitations[address])
  {
    hide Strip, Lower, Address, Taken;
  }

  /** An invitation is open exactly when its last issue stands, and it then expires thirty days after that. */
  lemma {:induction false} OpenExactly(ops: seq<Op>, n: nat, address: string) returns (i: nat)
    requires n <= |ops|
    ensures IsOpen(Run(ops[..n]), address) <==> exists k :: 0 <= k < n && StandsFrom(ops, k, n, address)
    ensures IsOpen(Run(ops[..n]), address) ==>
              && i < n && StandsFrom(ops, i, n, address)
              && Run(ops[..n]).invitations[address].expiresAt == ops[i].now + 30 * 86400
              && Run(ops[..n]).invitations[address].email == Strip(ops[i].email)
    ensures forall k, l | 0 <= k < n && 0 <= l < n ::
              StandsFrom(ops, k, n, address) && StandsFrom(ops, l, n, address) ==> k == l
    decreases n
  {
    hide Step, Run, Strip, Lower, Address, Usable;
    i := 0;
    if n == 0 {
      assert ops[..0] == [];
      NoInvitationAtFirst(address);
    } else {
      var m := n - 1;
      RunNext(ops, m);
      InvitationStep(Run(ops[..m]), ops[m], address);
      i := OpenExactly(ops, m, address);
      var before := i;
      if IssuedAt(ops, m, address) {
        i := m;
        assert StandsFrom(ops, m, n, address);
      } else if IsOpen(Run(ops[..m]), address) && !RevokedAt(ops, m, address) && !SpentAt(ops, m, address) {
        assert StandsFrom(ops, before, n, address);
      }
      StandingShrinks(ops, m, n, address);
    }
  }

  lemma NoInvitationAtFirst(address: string)
    ensures !IsOpen(Run([]), address)
  {
  }

  lemma StandingShrinks(ops: seq<Op>, m: nat, n: nat, address: string)
    requires m < |ops| && n == m + 1
    ensures forall k :: 0 <= k < n && StandsFrom(ops, k, n, address) ==>
              (k == m && IssuedAt(ops, m, address)) ||
              (k < m && StandsFrom(ops, k, m, address) && !IssuedAt(ops, m, address)
               && !RevokedAt(ops, m, address) && !SpentAt(ops, m, address))
  {
    hide IssuedAt, RevokedAt, SpentAt;
  }

  /** A gated registration in words: a new address, and an invitation still open and not yet expired. */
  lemma RegisteredWhenOpen(r: Registry, user: nat, email: string, now: Time)
    requires AccountsDistinct(r)
    ensures Register(r, user, email, false, now).1 == AccountCreated(user) <==>
            email != "" && user !in r.accounts && forall u :: u in r.accounts ==> r.accounts[u] != Lower(email)
    ensures Register(r, user, email, true, now).1 == Registered(user) <==>
            && email != "" && user !in r.accounts && (forall u :: u in r.accounts ==> r.accounts[u] != Lower(email))
            && Strip(Lower(email)) != ""
            && IsOpen(r, Address(Lower(email))) && now < r.invitations[Address(Lower(email))].expiresAt
  {
    hide Strip, Lower, Address, AccountsDistinct, Taken;
    CreateExactly(r, user, email);
    hide CreateAccount;
    CreateAnswers(r, user, email);
  }

  lemma CreateAnswers(r: Registry, user: nat, email: string)
    ensures CreateAccount(r, user, email).1 != Registered(user)
  {
    hide Taken, Lower;
  }

  /**
    In every run a gated registration of a new address succeeds exactly when the last invitation issued to it
    is no older than thirty days, and nobody has revoked it or been admitted by it since.
  */
  lemma RegisteredExactly(ops: seq<Op>, user: nat, email: string, now: Time)
    ensures Step(Run(ops), RegisterOp(user, email, true, now)).1 == Registered(user) <==>
            && user !in Run(ops).accounts
            && (forall u :: u in Run(ops).accounts ==> Run(ops).accounts[u] != Lower(email))
            && email != "" && Strip(Lower(email)) != ""
            && exists i :: 0 <= i < |ops| && StandsFrom(ops, i, |ops|, Address(Lower(email)))
                           && now < ops[i].now + 30 * 86400
  {
    hide Run, Register, Strip, Lower, Address, AccountsDistinct, StandsFrom;
    EveryAddressHasOneAccount(ops);
    RegisteredWhenOpen(Run(ops), user, email, now);
    assert ops[..|ops|] == ops;
    var address := Address(Lower(email));
    var i := OpenExactly(ops, |ops|, address);
  }

  lemma RevokedStep(r: Registry, op: Op, address: string)
    requires address in r.invitations && r.invitations[address].revokedAt.Some?
    requires !(op.IssueOp? && Address(op.email) == address && Step(r, op).1 == InvitationIssued)
    ensures address in Step(r, op).0.invitations && Step(r, op).0.invitations[address] == r.invitations[address]
    ensures op.RegisterOp? && op.invitationRequired && Address(Lower(op.email)) == address ==>
              Step(r, op).1 != Registered(op.user)
    ensures op.RevokeOp? && op.administrator && Address(op.email) == address && !IsSpent(r, address) ==>
              Step(r, op) == (r, AlreadyRevoked)
  {
    hide Strip, Lower, Address, Taken;
  }

  /**
    From its revocation until somebody issues it again a withdrawn invitation admits nobody, keeps the moment
    it was withdrawn, and revoking it again changes and records nothing.
  */
  lemma {:induction false} RevokedStaysOut(ops: seq<Op>, i: nat, n: nat, address: string, op: Op)
    requires i < n <= |ops| && RevokedAt(ops, i, address)
    requires forall k :: i < k < n ==> !IssuedAt(ops, k, address)
    requires op.RegisterOp? || op.RevokeOp?
    ensures address in Run(ops[..n]).invitations && Run(ops[..n]).invitations[address].revokedAt == Some(ops[i].now)
    ensures Run(ops[..n]).invitations[address].consumedAt.None?
    ensures op.RegisterOp? && op.invitationRequired && Address(Lower(op.email)) == address ==>
              Step(Run(ops[..n]), op).1 != Registered(op.user)
    ensures op.RevokeOp? && op.administrator && Address(op.email) == address ==>
              Step(Run(ops[..n]), op) == (Run(ops[..n]), AlreadyRevoked)
    decreases n
  {
    hide Step, Run, Strip, Lower, Address;
    var m := n - 1;
    RunNext(ops, m);
    if i < m {
      RevokedStaysOut(ops, i, m, address, op);
      assert !IssuedAt(ops, m, address);
      RevokedStep(Run(ops[..m]), ops[m], address);
    } else {
      InvitationStep(Run(ops[..i]), ops[i], address);
      RevocationKeepsUnspent(Run(ops[..i]), ops[i]);
    }
    RevokedStep(Run(ops[..n]), op, address);
  }

  lemma RevocationKeepsUnspent(r: Registry, op: Op)
    requires op.RevokeOp? && Step(r, op).1 == InvitationRevoked
    ensures Address(op.email) in Step(r, op).0.invitations
    ensures Step(r, op).0.invitations[Address(op.email)].consumedAt.None?
  {
    hide Strip, Lower, Address;
  }

  // ----- one address, however it is written -----

  predicate IsBlank(c: char) {
    c == ' ' || c == '\t' || c == '\n' || c == '\r'
  }

  /** Stripping takes the blanks off both ends, and nothing else. */
  lemma {:induction false} StripExactly(s: string) returns (from: nat, to: nat)
    ensures from <= to <= |s| && Strip(s) == s[from..to]
    ensures forall i :: 0 <= i < |s| && (i < from || i >= to) ==> IsBlank(s[i])
    ensures from < to ==> !IsBlank(s[from]) && !IsBlank(s[to - 1])
    decreases |s|
  {
    from, to := 0, |s|;
    if s != "" && IsSpace(s[0]) {
      from, to := StripExactly(s[1..]);
      from, to := from + 1, to + 1;
      assert s[1..][from - 1..to - 1] == s[from..to];
      assert forall i :: 0 < i < |s| ==> s[i] == s[1..][i - 1];
    } else if s != "" && IsSpace(s[|s| - 1]) {
      from, to := StripExactly(s[..|s| - 1]);
      assert s[..|s| - 1][from..to] == s[from..to];
      assert forall i :: 0 <= i < |s| - 1 ==> s[i] == s[..|s| - 1][i];
    } else {
      assert s[0..|s|] == s;
    }
  }

  /** Lowering changes the capitals of the ASCII alphabet to their small letters, and nothing else. */
  lemma LowerExactly(s: string, i: nat)
    requires i < |s|
    ensures |Lower(s)| == |s|
    ensures Lower(s)[i] as int == if 65 <= s[i] as int <= 90 then s[i] as int + 32 else s[i] as int
  {
  }


  lemma {:induction false} StripIgnoresCase(s: string)
    ensures Strip(Lower(s)) == Lower(Strip(s))
    decreases |s|
  {
    if s != "" {
      assert IsSpace(Lower(s)[0]) <==> IsSpace(s[0]);
      assert IsSpace(Lower(s)[|s| - 1]) <==> IsSpace(s[|s| - 1]);
      if IsSpace(s[0]) {
        assert Lower(s)[1..] == Lower(s[1..]);
        StripIgnoresCase(s[1..]);
      } else if IsSpace(s[|s| - 1]) {
        assert Lower(s)[..|s| - 1] == Lower(s[..|s| - 1]);
        StripIgnoresCase(s[..|s| - 1]);
      }
    }
  }

  /** An invitation and a registration meet whatever the case each was typed in. */
  lemma AddressIgnoresCase(email: string)
    ensures Address(Lower(email)) == Address(email)
  {
    StripIgnoresCase(email);
    LowerTwice(Strip(email));
  }

  // ----- the audit trail is the history -----

  /** The audit row of an accepted step. */
  function AuditOf(op: Op, answer: Answer): seq<AuditRow> {
    match op
    case IssueOp(_, email, _, _) => if answer == InvitationIssued then [AuditRow(Issued, Address(email))] else []
    case RevokeOp(_, email, _, _) => if answer == InvitationRevoked then [AuditRow(Revoked, Address(email))] else []
    case RegisterOp(user, email, required, _) =>
      if required && answer == Registered(user) then [AuditRow(Consumed, Address(email))] else []
    case CreateOp(_, _) => []
  }

  function AuditHistory(ops: seq<Op>): seq<AuditRow> {
    if ops == [] then [] else
      var n := |ops| - 1;
      AuditHistory(ops[..n]) + AuditOf(ops[n], Step(Run(ops[..n]), ops[n]).1)
  }

  lemma StepAuditsItself(r: Registry, op: Op)
    ensures Step(r, op).0.audit == r.audit + AuditOf(op, Step(r, op).1)
  {
    if op.RegisterOp? {
      AddressIgnoresCase(op.email);
    }
    hide Strip, Lower, Address, Taken;
  }

  /** The audit rows of every run are its accepted decisions, each once, in order, at its own address. */
  lemma {:induction false} AuditIsTheHistory(ops: seq<Op>)
    ensures Run(ops).audit == AuditHistory(ops)
  {
    if ops != [] {
      hide Step, AuditOf;
      AuditIsTheHistory(ops[..|ops| - 1]);
      StepAuditsItself(Run(ops[..|ops| - 1]), ops[|ops| - 1]);
    }
  }
}
