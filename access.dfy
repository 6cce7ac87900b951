/** The ownership check every route handler performs:
    `req.user.role !== 'admin' && owner.toString() !== req.user._id.toString()`
    answers 403. The owner of a course is its `createdBy`; the owner of a
    chapter or a video is found by walking up to its course. */
module Access {
  import opened Common
  import opened Text

  /** The authenticated caller the `protect` middleware attaches. */
  datatype Principal = Principal(id: UserId, role: string)

  predicate IsAdmin(p: Principal) {
    p.role == "admin"
  }

  /** The outcome of the check: the handler goes on, answers 403, or
      throws a TypeError (answered 500) because the owner could not be
      resolved and the comparison dereferenced `null`. */
  datatype Verdict = Allow | Deny | Crash

  /** `id.toString()` of an identifier; two identifiers print the same
      exactly when they are equal. */
  function IdText(id: nat): (s: string)
    ensures |s| >= 1 && IsDigits(s)
  {
    NatToString(id)
  }

  lemma IdTextInjective(a: nat, b: nat)
    ensures IdText(a) == IdText(b) <==> a == b
  {
    if IdText(a) == IdText(b) {
      assert DigitsValue(IdText(a)) == a && DigitsValue(IdText(b)) == b;
    }
  }

  /** The comparison as the handlers write it, on the text of the owner
      field. */
  function CompareText(p: Principal, ownerText: string): (v: Verdict)
    ensures v != Crash
    ensures v == Allow <==> IsAdmin(p) || ownerText == IdText(p.id)
  {
    if IsAdmin(p) || ownerText == IdText(p.id) then Allow else Deny
  }

  /** The check on a resolved owner (`None`: the chain of references
      reached a deleted document). An admin is never refused and never
      dereferences the chain. */
  function Decide(p: Principal, owner: Option<UserId>): (v: Verdict)
    ensures v == Allow <==> IsAdmin(p) || owner == Some(p.id)
    ensures v == Deny <==> !IsAdmin(p) && owner.Some? && owner.value != p.id
    ensures v == Crash <==> !IsAdmin(p) && owner.None?
  {
    if IsAdmin(p) then Allow
    else match owner
      case None => Crash
      case Some(o) =>
        IdTextInjective(o, p.id);
        CompareText(p, IdText(o))
  }

  /** The answer a handler sends when the check does not let it go on. */
  function Refusal<T>(v: Verdict): (r: Response<T>)
    requires v != Allow
    ensures v == Deny ==> r == Forbidden
    ensures v == Crash ==> r == ServerError
  {
    if v == Deny then Forbidden else ServerError
  }

  // ---------------------------------------------------------------------
  // GET /api/courses/:id as written

  /** `course.createdBy.toString()` after `.populate('createdBy', 'name email')`:
      the field holds the user document, whose `toString()` is the
      inspected object text `{ _id: ..., name: ..., email: ... }` rather
      than the identifier. */
  function UserDocText(id: UserId, name: string, email: string): (s: string)
    ensures |s| > 0 && s[0] == '{'
  {
    "{ _id: " + IdText(id) + ", name: '" + name + "', email: '" + email + "' }"
  }

  /** A populated owner never prints as an identifier. */
  lemma UserDocNotId(owner: UserId, name: string, email: string, id: UserId)
    ensures UserDocText(owner, name, email) != IdText(id)
  {
    var d := UserDocText(owner, name, email);
    var t := IdText(id);
    assert IsDigit(t[0]);
    assert d[0] == '{';
  }

  /** The check GET /api/courses/:id performs, on the populated owner. */
  function DecidePopulated(p: Principal, owner: UserId, name: string, email: string): (v: Verdict)
    ensures v == Allow <==> IsAdmin(p)
  {
    UserDocNotId(owner, name, email, p.id);
    CompareText(p, UserDocText(owner, name, email))
  }

  /** The discrepancy: the course's own creator, when not an admin, is
      refused, where every other course handler lets them in. */
  lemma OwnerRefusedAsWritten(p: Principal, name: string, email: string)
    requires !IsAdmin(p)
    ensures DecidePopulated(p, p.id, name, email) == Deny
    ensures Decide(p, Some(p.id)) == Allow
  {
  }
}
