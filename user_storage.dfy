/** `UserStorageInMemory`: the in-memory user store of the earlier,
    database-less revision: users by id, the set of e-mails in use, each
    user's e-mail, and the next id to hand out. */
module UserStorage {
  import opened Wrappers
  import opened Domain
  import opened Text

  function NotFoundById(userId: int): Error
  {
    ObjectNotFound("Пользователь с айди " + IntToString(userId) + " не найден.")
  }

  /** The e-mails recorded in `m`. */
  ghost function EmailSet(m: map<int, string>): set<string>
  {
    set k | k in m :: m[k]
  }

  ghost predicate DistinctEmails(m: map<int, string>)
  {
    forall a, b :: a in m && b in m && a != b ==> m[a] != m[b]
  }

  lemma EmailSetAdd(m: map<int, string>, k: int, e: string)
    requires k !in m
    ensures EmailSet(m[k := e]) == EmailSet(m) + {e}
  {
    forall x ensures x in EmailSet(m[k := e]) <==> x in EmailSet(m) + {e} {
      if x in EmailSet(m) {
        var j :| j in m && m[j] == x;
        assert m[k := e][j] == x;
      }
      assert m[k := e][k] == e;
    }
  }

  /** Changing one user's e-mail keeps every other user's e-mail in use;
      only when e-mails are distinct is the old one then gone. */
  lemma EmailSetUpdate(m: map<int, string>, k: int, e: string)
    requires k in m
    ensures EmailSet(m) - {m[k]} + {e} <= EmailSet(m[k := e])
    ensures DistinctEmails(m) ==> EmailSet(m[k := e]) == EmailSet(m) - {m[k]} + {e}
  {
    forall x | x in EmailSet(m) - {m[k]} + {e} ensures x in EmailSet(m[k := e]) {
      if x != e {
        var j :| j in m && m[j] == x;
        assert j != k && m[k := e][j] == x;
      }
      assert m[k := e][k] == e;
    }
  }

  /** Removing one user keeps every other user's e-mail in use; only when
      e-mails are distinct is the removed user's e-mail then gone. */
  lemma EmailSetRemove(m: map<int, string>, k: int)
    requires k in m
    ensures EmailSet(m) - {m[k]} <= EmailSet(m - {k})
    ensures DistinctEmails(m) ==> EmailSet(m - {k}) == EmailSet(m) - {m[k]}
  {
    forall x | x in EmailSet(m) - {m[k]} ensures x in EmailSet(m - {k}) {
      var j :| j in m && m[j] == x;
      assert j != k && (m - {k})[j] == x;
    }
  }

  class UserStorageInMemory {
    var idUsers: map<int, User>
    var emails: set<string>
    var userEmails: map<int, string>
    var id: int

    /** What every operation of the store keeps: users are stored under
        their own id, below the counter; `userEmails` has the same keys and
        records each user's e-mail; every e-mail in `emails` is some stored
        user's. Two users may share an e-mail: the store does not check it. */
    ghost predicate Valid()
      reads this
    {
      && 0 < id
      && (forall k :: k in idUsers ==> idUsers[k].id == k && 0 < k < id)
      && userEmails.Keys == idUsers.Keys
      && (forall k :: k in userEmails ==> userEmails[k] == idUsers[k].email)
      && emails <= EmailSet(userEmails)
    }

    /** The store as its callers keep it by checking e-mails first: the
        e-mails are pairwise distinct and `emails` records every one. */
    ghost predicate Consistent()
      reads this
    {
      Valid() && emails == EmailSet(userEmails) && DistinctEmails(userEmails)
    }

    constructor ()
      ensures Consistent()
      ensures idUsers == map[] && emails == {} && userEmails == map[] && id == 1
    {
      idUsers, emails, userEmails, id := map[], {}, map[], 1;
    }

    /** `createUser`: a DTO whose id is already taken is refused; otherwise
        the user gets the counter as id and its e-mail is recorded. The
        DTO's name and e-mail are copied into the user. The e-mail is not
        checked here: the store stays valid whatever it is, and stays
        consistent when the new one is not yet recorded. */
    method CreateUser(dto: UserDto) returns (r: Result<User, Error>)
      requires Valid() && dto.name.Some? && dto.email.Some?
      modifies this
      ensures dto.id.Some? && dto.id.value in old(idUsers) ==>
        && r == Err(ObjectAlreadyExists("Пользователь с таким id (" + IntToString(dto.id.value) + ") уже существует."))
        && idUsers == old(idUsers) && emails == old(emails) && userEmails == old(userEmails) && id == old(id)
      ensures !(dto.id.Some? && dto.id.value in old(idUsers)) ==>
        && r == Ok(User(old(id), dto.name.value, dto.email.value))
        && idUsers == old(idUsers)[old(id) := r.value]
        && emails == old(emails) + {dto.email.value}
        && userEmails == old(userEmails)[old(id) := dto.email.value]
        && id == old(id) + 1
        && GetUserById(old(id)) == r
        && CheckEmail(dto.email.value)
      ensures Valid()
      ensures old(Consistent()) && dto.email.value !in old(emails) ==> Consistent()
    {
      if dto.id.Some? && dto.id.value in idUsers {
        return Err(ObjectAlreadyExists("Пользователь с таким id (" + IntToString(dto.id.value) + ") уже существует."));
      }
      var user := User(id, dto.name.value, dto.email.value);
      EmailSetAdd(userEmails, id, user.email);
      idUsers := idUsers[id := user];
      emails := emails + {user.email};
      userEmails := userEmails[id := user.email];
      id := id + 1;
      r := Ok(user);
    }

    /** `updateUser`: replaces a stored user; a changed e-mail replaces the
        old one in `emails` and `userEmails`. An unknown id is an error. The
        store stays valid, and stays consistent unless the new e-mail is
        another user's. */
    method UpdateUser(user: User) returns (r: Result<User, Error>)
      requires Valid()
      modifies this`idUsers, this`emails, this`userEmails
      ensures user.id !in old(idUsers) ==>
        && r == Err(NotFoundById(user.id))
        && idUsers == old(idUsers) && emails == old(emails) && userEmails == old(userEmails)
      ensures user.id in old(idUsers) ==>
        && r == Ok(user)
        && idUsers == old(idUsers)[user.id := user]
        && (user.email == old(userEmails)[user.id] ==> emails == old(emails) && userEmails == old(userEmails))
        && (user.email != old(userEmails)[user.id] ==>
              && emails == old(emails) - {old(userEmails)[user.id]} + {user.email}
              && userEmails == old(userEmails)[user.id := user.email])
      ensures Valid()
      ensures old(Consistent()) && (user.id !in old(idUsers) || user.email == old(userEmails)[user.id] || user.email !in old(emails)) ==>
        Consistent()
    {
      if user.id in idUsers {
        var oldEmail := userEmails[user.id];
        if user.email != oldEmail {
          EmailSetUpdate(userEmails, user.id, user.email);
          emails := emails - {oldEmail};
          emails := emails + {user.email};
          userEmails := userEmails[user.id := user.email];
        }
        idUsers := idUsers[user.id := user];
        return Ok(user);
      }
      r := Err(NotFoundById(user.id));
    }

    /** `deleteUser`: removes the user, its e-mail and its `userEmails`
        entry (`remove(key, value)`, which only removes a matching pair).
        The e-mail leaves `emails` even when another user shares it. */
    method DeleteUser(userId: int) returns (r: Result<bool, Error>)
      requires Valid()
      modifies this`idUsers, this`emails, this`userEmails
      ensures Valid()
      ensures old(Consistent()) ==> Consistent()
      ensures userId !in old(idUsers) ==>
        && r == Err(NotFoundById(userId))
        && idUsers == old(idUsers) && emails == old(emails) && userEmails == old(userEmails)
      ensures userId in old(idUsers) ==>
        && r == Ok(true)
        && idUsers == old(idUsers) - {userId}
        && emails == old(emails) - {old(idUsers)[userId].email}
        && userEmails == old(userEmails) - {userId}
        && !CheckEmail(old(idUsers)[userId].email)
    {
      if userId in idUsers {
        var email := idUsers[userId].email;
        EmailSetRemove(userEmails, userId);
        emails := emails - {email};
        if userId in userEmails && userEmails[userId] == email {
          userEmails := userEmails - {userId};
        }
        idUsers := idUsers - {userId};
        return Ok(true);
      }
      r := Err(NotFoundById(userId));
    }

    /** `getAllUsers`: every stored user; an empty store is an error. */
    function GetAllUsers(): (r: Result<set<User>, Error>)
      reads this
      ensures r.Err? <==> idUsers == map[]
      ensures r.Err? ==> r.error == ObjectNotFound("Список пользователей пуст.")
      ensures r.Ok? ==> forall k :: k in idUsers ==> idUsers[k] in r.value
      ensures r.Ok? ==> forall u :: u in r.value ==> exists k :: k in idUsers && idUsers[k] == u
    {
      var users := set k | k in idUsers :: idUsers[k];
      if idUsers != map[] then Ok(users)
      else Err(ObjectNotFound("Список пользователей пуст."))
    }

    /** `getUserById`. */
    function GetUserById(userId: int): (r: Result<User, Error>)
      reads this
      ensures r.Ok? <==> userId in idUsers
      ensures r.Ok? ==> r.value == idUsers[userId]
      ensures r.Err? ==> r.error == NotFoundById(userId)
    {
      if userId in idUsers then Ok(idUsers[userId]) else Err(NotFoundById(userId))
    }

    /** `checkEmail`: the e-mail is in use. */
    function CheckEmail(email: string): (r: bool)
      reads this
      ensures r <==> email in emails
    {
      email in emails
    }

    /** An e-mail in use is some stored user's; in a consistent store the
        converse holds too. */
    lemma CheckEmailMeansTaken(email: string)
      requires Valid()
      ensures CheckEmail(email) ==> exists k :: k in idUsers && idUsers[k].email == email
      ensures Consistent() ==> (CheckEmail(email) <==> exists k :: k in idUsers && idUsers[k].email == email)
    {
      if CheckEmail(email) {
        var k :| k in userEmails && userEmails[k] == email;
        assert idUsers[k].email == email;
      }
      if Consistent() {
        forall k | k in idUsers && idUsers[k].email == email ensures CheckEmail(email) {
          assert userEmails[k] == email;
        }
      }
    }
  }
}
