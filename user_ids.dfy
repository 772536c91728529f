/**
 * run_asset.go's `UserNumID`: the numeric user and group id of the account a
 * VM or asset shell runs as, parsed from the account's decimal id strings
 * with `strconv.ParseUint(s, 10, 32)`.
 */
module UserIds {
  import opened Wrappers
  import opened Strconv

  /** The two fields of Go's `user.User` that are read. */
  datatype User = User(uid: string, gid: string)

  datatype IdError =
    | InvalidUserId(uid: string, cause: NumError)
    | InvalidGroupId(gid: string, cause: NumError)

  /** An id `ParseUint(_, 10, 32)` accepts: non-empty unsigned decimal digits worth at most 4294967295. */
  predicate ValidId(s: string) {
    s != [] && AllDigits(s) && Value(s) <= 0xFFFF_FFFF
  }

  /**
   * `UserNumID`: `(uid, gid, nil)`, or `(0, 0, err)` where the error names the
   * first id that does not parse (the user id is checked first).
   */
  function UserNumID(u: User): (r: (nat, nat, Option<IdError>))
    ensures r.2.None? <==> ValidId(u.uid) && ValidId(u.gid)
    ensures r.2.None? ==> r.0 == Value(u.uid) && r.1 == Value(u.gid)
    ensures !ValidId(u.uid) ==> r.0 == 0 && r.1 == 0 && r.2.Some? && r.2.value.InvalidUserId?
    ensures ValidId(u.uid) && !ValidId(u.gid) ==> r.0 == 0 && r.1 == 0 && r.2.Some? && r.2.value.InvalidGroupId?
  {
    ParseUintOk(u.uid, 32);
    ParseUintOk(u.gid, 32);
    Pow2Values();
    match ParseUint(u.uid, 32)
    case Err(e) => (0, 0, Some(InvalidUserId(u.uid, e)))
    case Ok(uid) =>
      match ParseUint(u.gid, 32)
      case Err(e) => (0, 0, Some(InvalidGroupId(u.gid, e)))
      case Ok(gid) => (uid, gid, None)
  }

  /** Printing two 32-bit ids in decimal and parsing them back gives the same ids. */
  lemma UserNumIDFormat(uid: nat, gid: nat)
    requires uid <= 0xFFFF_FFFF && gid <= 0xFFFF_FFFF
    ensures UserNumID(User(FormatNat(uid), FormatNat(gid))) == (uid, gid, None)
  {
    FormatNatValue(uid);
    FormatNatValue(gid);
  }

  /** A signed id such as "-1" or "+0" is refused. */
  lemma SignedIdRefused(s: string, gid: string)
    requires |s| > 0 && (s[0] == '-' || s[0] == '+')
    ensures UserNumID(User(s, gid)) == (0, 0, Some(InvalidUserId(s, Syntax)))
  {
  }
}
