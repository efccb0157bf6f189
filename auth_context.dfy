/** The auth provider: the signed-in user, the copy of their user record the pages
    read, and the get-or-create of that record on sign-in. */
module AuthContext {
  import opened Ledger

  /** The fields of the identity provider's user that the application reads. */
  datatype Identity = Identity(uid: Uid, email: string)

  /** The provider's `user` and `userData` state. The auth callback sets both on
      sign-in and clears both on sign-out. */
  datatype Session = SignedOut | SignedIn(user: Identity, userData: UserRecord)

  /** Points every new user starts with. */
  const SignUpBonus: int := 10

  function NewUserRecord(id: Identity): UserRecord {
    UserRecord(id.uid, id.email, SignUpBonus, User)
  }

  /** The session's copy of the user record is the one the store holds. */
  predicate Coherent(users: map<Uid, UserRecord>, s: Session) {
    s.SignedIn? ==> s.user.uid in users && users[s.user.uid] == s.userData
  }

  /** The record a sign-in reads back, and the users collection after it: an existing
      record is returned as stored with no write; otherwise a fresh record with the
      sign-up bonus and the `user` role is written under the identity's uid. */
  function GetOrCreate(users: map<Uid, UserRecord>, id: Identity): (r: (UserRecord, map<Uid, UserRecord>))
    ensures r.1.Keys == users.Keys + {id.uid} && r.1[id.uid] == r.0
    ensures forall u :: u in users ==> r.1[u] == users[u]
    ensures id.uid !in users ==>
      r.0.uid == id.uid && r.0.email == id.email && r.0.pointsBalance == 10 && r.0.role == User
  {
    if id.uid in users then (users[id.uid], users)
    else
      var rec := NewUserRecord(id);
      (rec, users[id.uid := rec])
  }

  /** The session after the auth callback reports a signed-in identity. */
  function SignIn(users: map<Uid, UserRecord>, id: Identity): (r: (Session, map<Uid, UserRecord>))
    ensures r.0.SignedIn? && r.0.user == id && Coherent(r.1, r.0)
  {
    var (rec, users') := GetOrCreate(users, id);
    (SignedIn(id, rec), users')
  }

  /** Signing in again with the same uid writes nothing and grants no second bonus,
      whatever the second identity's email. */
  lemma SignInAgainChangesNothing(users: map<Uid, UserRecord>, id: Identity, id': Identity)
    requires id'.uid == id.uid
    ensures var users1 := SignIn(users, id).1;
            SignIn(users1, id').1 == users1 && SignIn(users1, id').0.userData == SignIn(users, id).0.userData
  {
  }

  /** A sign-in adds the bonus to the total of all balances exactly when it creates
      the record, and nothing otherwise. */
  lemma SignInPoints(users: map<Uid, UserRecord>, id: Identity)
    ensures TotalPoints(SignIn(users, id).1)
         == TotalPoints(users) + (if id.uid in users then 0 else SignUpBonus)
  {
    if id.uid !in users {
      TotalPointsUpdate(users, id.uid, NewUserRecord(id));
    }
  }

  /** A sign-in never introduces a negative balance. */
  lemma SignInKeepsNonNegative(users: map<Uid, UserRecord>, id: Identity)
    requires NonNegative(users)
    ensures NonNegative(SignIn(users, id).1)
  {
  }
}
