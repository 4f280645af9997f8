/** `UserServiceImpl`: reading, creating and partially updating users
    through the users table, whose e-mail column is unique. */
module UserService {
  import opened Wrappers
  import opened Domain
  import opened Text
  import opened Database

  function NotFoundById(userId: int): Error
  {
    ObjectNotFound("Пользователь с айди " + IntToString(userId) + " не найден.")
  }

  function EmailTaken(email: string): Error
  {
    ObjectAlreadyExists("Пользователь с email " + email + " уже существует")
  }

  /** Some stored user has this e-mail (`findUserByEmail` finds one). */
  predicate HasEmail(users: map<int, User>, email: string)
  {
    exists k :: k in users && users[k].email == email
  }

  /** `getUserById`. The conversion to `UserDto` (`UserMapper`) is not part
      of this model, so the user is returned as stored. */
  function GetUserById(db: Database, userId: int): (r: Result<User, Error>)
    reads db
    ensures r.Ok? <==> userId in db.users
    ensures r.Ok? ==> r.value == db.users[userId]
    ensures r.Err? ==> r.error == NotFoundById(userId)
  {
    if userId in db.users then Ok(db.users[userId]) else Err(NotFoundById(userId))
  }

  /** `createUser`: saving a user whose e-mail is already stored violates
      the unique constraint, which is reported as already-exists; the insert
      that failed has still drawn the next identity value, which no user
      will get. Otherwise the user is stored under the next identity value. */
  method CreateUser(db: Database, dto: UserDto) returns (r: Result<User, Error>)
    requires db.Valid() && dto.name.Some? && dto.email.Some?
    modifies db`users, db`nextUserId
    ensures db.Valid()
    ensures HasEmail(old(db.users), dto.email.value) ==>
      r == Err(EmailTaken(dto.email.value)) && db.users == old(db.users) && db.nextUserId == old(db.nextUserId) + 1
    ensures !HasEmail(old(db.users), dto.email.value) ==>
      && r == Ok(User(old(db.nextUserId), dto.name.value, dto.email.value))
      && db.users == old(db.users)[old(db.nextUserId) := r.value]
      && db.nextUserId == old(db.nextUserId) + 1
  {
    if HasEmail(db.users, dto.email.value) {
      db.nextUserId := db.nextUserId + 1;
      return Err(EmailTaken(dto.email.value));
    }
    var user := User(db.nextUserId, dto.name.value, dto.email.value);
    db.users := db.users[user.id := user];
    db.nextUserId := db.nextUserId + 1;
    r := Ok(user);
  }

  /** The outcome of `patchUser` on the stored `users`: an unknown id is not
      found; a blank name, then a blank e-mail, is refused; an e-mail held
      by another user is refused; otherwise the present fields replace the
      stored ones. */
  function Patched(users: map<int, User>, userId: int, dto: UserDto): (r: Result<User, Error>)
    ensures userId !in users ==> r == Err(NotFoundById(userId))
    ensures userId in users && dto.name.Some? && IsBlank(dto.name.value) ==>
      r == Err(ValidationException("Имя не может быть пустым"))
    ensures userId in users && !(dto.name.Some? && IsBlank(dto.name.value)) && dto.email.Some? && IsBlank(dto.email.value) ==>
      r == Err(ValidationException("E-mail не может быть пустым"))
    ensures r.Ok? ==> userId in users && r.value.id == users[userId].id
    ensures r.Ok? ==> r.value.name == (if dto.name.Some? then dto.name.value else users[userId].name)
    ensures r.Ok? ==> r.value.email == (if dto.email.Some? then dto.email.value else users[userId].email)
    ensures r.Ok? && dto.email.Some? && dto.email.value != users[userId].email ==> !HasEmail(users, dto.email.value)
    ensures r.Err? && userId in users && r.error.ObjectAlreadyExists? ==>
      dto.email.Some? && dto.email.value != users[userId].email && HasEmail(users, dto.email.value)
    ensures (&& userId in users
             && !(dto.name.Some? && IsBlank(dto.name.value)) && !(dto.email.Some? && IsBlank(dto.email.value))
             && dto.email.Some? && dto.email.value != users[userId].email && HasEmail(users, dto.email.value))
      ==> r == Err(EmailTaken(dto.email.value))
    ensures r.Ok? <==>
      && userId in users
      && !(dto.name.Some? && IsBlank(dto.name.value))
      && !(dto.email.Some? && IsBlank(dto.email.value))
      && !(dto.email.Some? && dto.email.value != users[userId].email && HasEmail(users, dto.email.value))
  {
    if userId !in users then Err(NotFoundById(userId))
    else
      var user := users[userId];
      if dto.name.Some? && IsBlank(dto.name.value) then Err(ValidationException("Имя не может быть пустым"))
      else if dto.email.Some? && IsBlank(dto.email.value) then Err(ValidationException("E-mail не может быть пустым"))
      else if dto.email.Some? && dto.email.value != user.email && HasEmail(users, dto.email.value) then
        Err(EmailTaken(dto.email.value))
      else
        Ok(user.(name := if dto.name.Some? then dto.name.value else user.name,
                 email := if dto.email.Some? then dto.email.value else user.email))
  }

  /** Sending back one's own e-mail is not a conflict. */
  lemma OwnEmailIsAccepted(users: map<int, User>, userId: int, dto: UserDto)
    requires userId in users && dto.name.None? && dto.email == Some(users[userId].email)
    requires !IsBlank(users[userId].email)
    ensures Patched(users, userId, dto) == Ok(users[userId])
  {
  }

  /** Applying the same patch again to its result changes nothing more. */
  lemma PatchIdempotent(users: map<int, User>, userId: int, dto: UserDto)
    requires Patched(users, userId, dto).Ok?
    ensures var once := Patched(users, userId, dto).value;
      Patched(users[userId := once], userId, dto) == Ok(once)
  {
    var once := Patched(users, userId, dto).value;
    var again := users[userId := once];
    if dto.email.Some? {
      assert again[userId].email == dto.email.value;
    }
  }

  /** `patchUser`: the stored user is changed field by field, and saved only
      when every check passed. */
  method PatchUser(db: Database, userId: int, dto: UserDto) returns (r: Result<User, Error>)
    requires db.Valid()
    modifies db`users
    ensures db.Valid()
    ensures r == Patched(old(db.users), userId, dto)
    ensures r.Ok? ==> db.users == old(db.users)[userId := r.value]
    ensures r.Err? ==> db.users == old(db.users)
  {
    if userId !in db.users {
      return Err(NotFoundById(userId));
    }
    var userToPatch := db.users[userId];
    if dto.name.Some? && !IsBlank(dto.name.value) {
      userToPatch := userToPatch.(name := dto.name.value);
    }
    if dto.name.Some? {
      if IsBlank(dto.name.value) {
        return Err(ValidationException("Имя не может быть пустым"));
      }
      userToPatch := userToPatch.(name := dto.name.value);
    }
    if dto.email.Some? {
      if IsBlank(dto.email.value) {
        return Err(ValidationException("E-mail не может быть пустым"));
      }
      var oldEmail := userToPatch.email;
      var email := dto.email.value;
      if email != oldEmail && HasEmail(db.users, email) {
        return Err(EmailTaken(email));
      }
      userToPatch := userToPatch.(email := dto.email.value);
    }
    db.users := db.users[userId := userToPatch];
    r := Ok(userToPatch);
  }
}
