/** The /bookinstances lending endpoints: borrowing a copy that is available, and returning a copy
    that is on loan to the requester. Each handler looks the instance up, tests its status (and
    borrower), and writes a partial update of that one row. */
module BookInstancesRouter {
  import opened Wrappers
  import opened Http
  import opened Models
  import opened Dependencies
  import Crud

  /** Length of a loan, in days. */
  const LOAN_DAYS: int := 14

  /** The borrower id a return writes. User ids start at 1, so 0 names no user. */
  const NO_BORROWER: int := 0

  const INSTANCE_NOT_FOUND := HttpError(404, "Book instance not found", map[])
  const NOT_AVAILABLE := HttpError(400, "Book instance is not available", map[])
  const NOT_BORROWED_TO_YOU := HttpError(400, "This book instance is not borrowed to you", map[])

  /** The update data borrow_book writes: on loan, to the requester, due in 14 days. */
  function BorrowUpdate(userId: int, today: int): InstanceUpdate {
    InstanceUpdate(None, None, Some(today + LOAN_DAYS), Some(userId), Some(OnLoan))
  }

  /** The update data return_book writes: available, borrower 0; due_back is not in it. */
  function ReturnUpdate(): InstanceUpdate {
    InstanceUpdate(None, None, None, Some(NO_BORROWER), Some(Available))
  }

  /** The response to a lending request, and the instance table after it. */
  datatype Outcome = Outcome(response: Result<BookInstance, HttpError>, instances: seq<BookInstance>)

  /** borrow_book on the table s: 404 for an unknown id (before any status test), 400 unless the
      instance is Available; otherwise it goes on loan to the requester, due back in 14 days.
      Nothing is written on failure, and no other instance is touched on success. */
  function Borrow(s: seq<BookInstance>, instanceId: string, userId: int, today: int): (o: Outcome)
    ensures var k := InstanceIndex(s, instanceId);
      && (k == |s| ==> o == Outcome(Failure(INSTANCE_NOT_FOUND), s))
      && (k < |s| && s[k].status != Available ==> o == Outcome(Failure(NOT_AVAILABLE), s))
      && (k < |s| && s[k].status == Available ==>
            && o.response == Success(s[k].(status := OnLoan, borrowerId := Some(userId), dueBack := Some(today + LOAN_DAYS)))
            && o.instances == s[k := o.response.value])
    ensures |o.instances| == |s|
    ensures forall j :: 0 <= j < |s| && s[j].id != instanceId ==> o.instances[j] == s[j]
  {
    var found := Crud.GetBookInstance(s, instanceId);
    if found.None? then
      Outcome(Failure(INSTANCE_NOT_FOUND), s)
    else if found.value.status == Available then
      var k := InstanceIndex(s, instanceId);
      var updated := ApplyInstanceUpdate(s[k], BorrowUpdate(userId, today));
      Outcome(Success(updated), s[k := updated])
    else
      Outcome(Failure(NOT_AVAILABLE), s)
  }

  /** return_book on the table s: 404 for an unknown id, 400 unless the instance is on loan to the
      requester; otherwise it becomes Available with borrower 0 and keeps its due date. */
  function Return(s: seq<BookInstance>, instanceId: string, userId: int): (o: Outcome)
    ensures var k := InstanceIndex(s, instanceId);
      && (k == |s| ==> o == Outcome(Failure(INSTANCE_NOT_FOUND), s))
      && (k < |s| && !(s[k].status == OnLoan && s[k].borrowerId == Some(userId)) ==>
            o == Outcome(Failure(NOT_BORROWED_TO_YOU), s))
      && (k < |s| && s[k].status == OnLoan && s[k].borrowerId == Some(userId) ==>
            && o.response == Success(s[k].(status := Available, borrowerId := Some(NO_BORROWER)))
            && o.instances == s[k := o.response.value])
    ensures |o.instances| == |s|
    ensures forall j :: 0 <= j < |s| && s[j].id != instanceId ==> o.instances[j] == s[j]
  {
    var found := Crud.GetBookInstance(s, instanceId);
    if found.None? then
      Outcome(Failure(INSTANCE_NOT_FOUND), s)
    else if found.value.status == OnLoan && found.value.borrowerId == Some(userId) then
      var k := InstanceIndex(s, instanceId);
      var updated := ApplyInstanceUpdate(s[k], ReturnUpdate());
      Outcome(Success(updated), s[k := updated])
    else
      Outcome(Failure(NOT_BORROWED_TO_YOU), s)
  }

  /** After a write to position k of an instance with the same id, the lookup still lands on k. */
  lemma IndexAfterWrite(s: seq<BookInstance>, instanceId: string, v: BookInstance)
    requires InstanceIndex(s, instanceId) < |s| && v.id == instanceId
    ensures InstanceIndex(s[InstanceIndex(s, instanceId) := v], instanceId) == InstanceIndex(s, instanceId)
  {
    var k := InstanceIndex(s, instanceId);
    var t := s[k := v];
    assert t[k].id == instanceId;
    assert forall j :: 0 <= j < k ==> t[j] == s[j];
  }

  /** A borrow followed by a return by the same user succeeds and leaves the copy Available
      again, with borrower 0 and the loan's due date. */
  lemma BorrowThenReturn(s: seq<BookInstance>, instanceId: string, userId: int, today: int)
    requires Borrow(s, instanceId, userId, today).response.Success?
    ensures var k := InstanceIndex(s, instanceId);
            var back := s[k].(borrowerId := Some(NO_BORROWER), dueBack := Some(today + LOAN_DAYS));
            Return(Borrow(s, instanceId, userId, today).instances, instanceId, userId)
              == Outcome(Success(back), s[k := back])
  {
    var b := Borrow(s, instanceId, userId, today);
    IndexAfterWrite(s, instanceId, b.response.value);
  }

  /** After one user borrows a copy, a return by anyone else fails and writes nothing. */
  lemma ReturnByOtherFails(s: seq<BookInstance>, instanceId: string, userId: int, otherId: int, today: int)
    requires Borrow(s, instanceId, userId, today).response.Success?
    requires otherId != userId
    ensures var b := Borrow(s, instanceId, userId, today);
            Return(b.instances, instanceId, otherId) == Outcome(Failure(NOT_BORROWED_TO_YOU), b.instances)
  {
    var b := Borrow(s, instanceId, userId, today);
    IndexAfterWrite(s, instanceId, b.response.value);
  }

  /** A copy on loan cannot be borrowed again, by anyone, until it is returned. */
  lemma BorrowTwiceFails(s: seq<BookInstance>, instanceId: string, userId: int, otherId: int, today: int, later: int)
    requires Borrow(s, instanceId, userId, today).response.Success?
    ensures var b := Borrow(s, instanceId, userId, today);
            Borrow(b.instances, instanceId, otherId, later) == Outcome(Failure(NOT_AVAILABLE), b.instances)
  {
    var b := Borrow(s, instanceId, userId, today);
    IndexAfterWrite(s, instanceId, b.response.value);
  }

  /** A returned copy can be borrowed again, by anyone. */
  lemma ReturnThenBorrow(s: seq<BookInstance>, instanceId: string, userId: int, otherId: int, today: int)
    requires Return(s, instanceId, userId).response.Success?
    ensures var r := Return(s, instanceId, userId);
            var b := Borrow(r.instances, instanceId, otherId, today);
            b.response.Success? && b.response.value.borrowerId == Some(otherId)
  {
    var r := Return(s, instanceId, userId);
    IndexAfterWrite(s, instanceId, r.response.value);
  }

  /** Every copy on loan records a real borrower (a user id, which is at least 1) and a due date. */
  ghost predicate LoansRecorded(s: seq<BookInstance>) {
    forall i :: i in s && i.status == OnLoan ==> i.borrowerId.Some? && i.borrowerId.value >= 1 && i.dueBack.Some?
  }

  /** Borrowing and returning keep every loan's borrower and due date recorded. */
  lemma LendingKeepsLoansRecorded(s: seq<BookInstance>, instanceId: string, userId: int, today: int)
    requires LoansRecorded(s)
    requires userId >= 1
    ensures LoansRecorded(Borrow(s, instanceId, userId, today).instances)
    ensures LoansRecorded(Return(s, instanceId, userId).instances)
  {
    var b := Borrow(s, instanceId, userId, today).instances;
    forall i | i in b && i.status == OnLoan
      ensures i.borrowerId.Some? && i.borrowerId.value >= 1 && i.dueBack.Some?
    {
      var j :| 0 <= j < |b| && b[j] == i;
      if b[j] != s[j] {
        assert j == InstanceIndex(s, instanceId);
      } else {
        assert s[j] in s;
      }
    }
    var r := Return(s, instanceId, userId).instances;
    forall i | i in r && i.status == OnLoan
      ensures i.borrowerId.Some? && i.borrowerId.value >= 1 && i.dueBack.Some?
    {
      var j :| 0 <= j < |r| && r[j] == i;
      assert r[j] == s[j];
      assert s[j] in s;
    }
  }

  /** borrow_book, for the already authenticated, active current user. */
  method BorrowBook(db: Tables, currentUser: User, instanceId: string, today: int)
    returns (r: Result<BookInstance, HttpError>)
    requires db.Valid()
    modifies db`instances
    ensures db.Valid()
    ensures Outcome(r, db.instances) == Borrow(old(db.instances), instanceId, currentUser.id, today)
  {
    var found := Crud.GetBookInstance(db.instances, instanceId);
    if found.None? {
      return Failure(INSTANCE_NOT_FOUND);
    }
    if found.value.status == Available {
      var updated := db.UpdateBookInstance(instanceId, BorrowUpdate(currentUser.id, today));
      assert updated.Some?;
      r := Success(updated.value);
    } else {
      r := Failure(NOT_AVAILABLE);
    }
  }

  /** return_book, for the already authenticated, active current user. */
  method ReturnBook(db: Tables, currentUser: User, instanceId: string)
    returns (r: Result<BookInstance, HttpError>)
    requires db.Valid()
    modifies db`instances
    ensures db.Valid()
    ensures Outcome(r, db.instances) == Return(old(db.instances), instanceId, currentUser.id)
  {
    var found := Crud.GetBookInstance(db.instances, instanceId);
    if found.None? {
      return Failure(INSTANCE_NOT_FOUND);
    }
    if found.value.status == OnLoan && found.value.borrowerId == Some(currentUser.id) {
      var updated := db.UpdateBookInstance(instanceId, ReturnUpdate());
      assert updated.Some?;
      r := Success(updated.value);
    } else {
      r := Failure(NOT_BORROWED_TO_YOU);
    }
  }

  /** A borrow request as a whole: the bearer token is resolved to an active stored user first
      (401 or 400 from the guard, with nothing written), and only then does borrow_book run. */
  method BorrowRequest(db: Tables, j: Jwt, token: string, now: int, instanceId: string, today: int)
    returns (r: Result<BookInstance, HttpError>)
    requires db.Valid()
    modifies db`instances
    ensures db.Valid()
    ensures var guard := ActiveUserFromToken(j, old(db.users), token, now);
      && (guard.Failure? ==> r == Failure(guard.error) && db.instances == old(db.instances))
      && (guard.Success? ==> Outcome(r, db.instances) == Borrow(old(db.instances), instanceId, guard.value.id, today))
  {
    var guard := ActiveUserFromToken(j, db.users, token, now);
    if guard.Failure? {
      return Failure(guard.error);
    }
    r := BorrowBook(db, guard.value, instanceId, today);
  }

  /** A return request as a whole: the same guard, then return_book. */
  method ReturnRequest(db: Tables, j: Jwt, token: string, now: int, instanceId: string)
    returns (r: Result<BookInstance, HttpError>)
    requires db.Valid()
    modifies db`instances
    ensures db.Valid()
    ensures var guard := ActiveUserFromToken(j, old(db.users), token, now);
      && (guard.Failure? ==> r == Failure(guard.error) && db.instances == old(db.instances))
      && (guard.Success? ==> Outcome(r, db.instances) == Return(old(db.instances), instanceId, guard.value.id))
  {
    var guard := ActiveUserFromToken(j, db.users, token, now);
    if guard.Failure? {
      return Failure(guard.error);
    }
    r := ReturnBook(db, guard.value, instanceId);
  }

  /** The user a request acts as is a stored user, so its id is at least 1: lending on behalf of
      the guard's user keeps every loan's borrower and due date recorded. */
  lemma GuardedLendingKeepsLoansRecorded(users: seq<User>, s: seq<BookInstance>, j: Jwt, token: string, now: int,
                                         instanceId: string, today: int)
    requires forall u :: u in users ==> u.id >= 1
    requires LoansRecorded(s)
    requires ActiveUserFromToken(j, users, token, now).Success?
    ensures var u := ActiveUserFromToken(j, users, token, now).value;
            && LoansRecorded(Borrow(s, instanceId, u.id, today).instances)
            && LoansRecorded(Return(s, instanceId, u.id).instances)
  {
    var u := ActiveUserFromToken(j, users, token, now).value;
    LendingKeepsLoansRecorded(s, instanceId, u.id, today);
  }
}
