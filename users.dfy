/** The `User` record of the MusFit backend and its mapping to and from a
    store document: the constructor's normalisation of missing values,
    `to_dict` and `from_dict`. */
module Users {
  import opened Values

  /** A `User` object. The six leading fields hold whatever value the caller
      or the document supplied; the constructor normalises the rest. */
  datatype User = User(
    userId: Value,
    first: Value,
    last: Value,
    email: Value,
    birth: Value,
    gender: Value,
    freePassUsed: bool,
    tokenProfile: Value,
    history: Value,
    scheduled: Value,
    memberships: Value,
    settings: Value)

  const EmptyList: Value := List([])
  const EmptyDict: Value := Dict(map[])

  /** A field after `value or default`: a truthy value, or the default. */
  predicate Defaulted(v: Value, default: Value)
  {
    Truthy(v) || v == default
  }

  /** What the constructor guarantees of every `User`. */
  predicate Normalised(u: User)
  {
    Defaulted(u.tokenProfile, EmptyList) && Defaulted(u.history, EmptyList) &&
    Defaulted(u.scheduled, EmptyList) && Defaulted(u.memberships, EmptyList) &&
    Defaulted(u.settings, EmptyDict)
  }

  /** `User.__init__`: `bool(freePassUsed)`, and `x or []` / `x or {}` for the
      collections. */
  function NewUser(userId: Value, first: Value, last: Value, email: Value, birth: Value, gender: Value,
                   freePassUsed: Value, tokenProfile: Value, history: Value, scheduled: Value,
                   memberships: Value, settings: Value): (u: User)
    ensures Normalised(u)
  {
    User(userId, first, last, email, birth, gender, Truthy(freePassUsed),
         Or(tokenProfile, EmptyList), Or(history, EmptyList), Or(scheduled, EmptyList),
         Or(memberships, EmptyList), Or(settings, EmptyDict))
  }

  /** The constructor changes nothing about a user's own fields: building a
      user from the fields of a user gives that user back. */
  lemma NewUserFixesNormalised(u: User)
    requires Normalised(u)
    ensures NewUser(u.userId, u.first, u.last, u.email, u.birth, u.gender, Bool(u.freePassUsed),
                    u.tokenProfile, u.history, u.scheduled, u.memberships, u.settings) == u
  {
  }

  /** The argument at position `i` of a call, or the parameter's default. */
  function Arg(args: seq<Value>, i: nat, default: Value): Value
  {
    if i < |args| then args[i] else default
  }

  /** `User(*args)`: the six leading parameters are required; the other six
      have defaults (`freePassUsed=False`, the rest `None`). */
  function Construct(args: seq<Value>): (u: User)
    requires 6 <= |args| <= 12
    ensures Normalised(u)
    ensures u.userId == args[0] && u.first == args[1] && u.last == args[2]
    ensures u.email == args[3] && u.birth == args[4] && u.gender == args[5]
  {
    NewUser(args[0], args[1], args[2], args[3], args[4], args[5],
            Arg(args, 6, Bool(false)), Arg(args, 7, Null), Arg(args, 8, Null),
            Arg(args, 9, Null), Arg(args, 10, Null), Arg(args, 11, Null))
  }

  /** The keys `from_dict` requires (`mandatory_keys`). */
  const MandatoryKeys: seq<string> := ["user_id", "first_name", "last_name", "email", "birthdate", "gender"]

  /** The keys `from_dict` reads, in the constructor's parameter order
      (`all_keys`). The first is "userId", not the "user_id" that
      `MandatoryKeys` requires. */
  const AllKeys: seq<string> := ["userId", "first_name", "last_name", "email", "birthdate", "gender",
                                 "free_pass_used", "token_profile", "history", "scheduled",
                                 "memberships", "settings"]

  /** The keys `to_dict` writes. */
  const FieldKeys: set<string> := {"first_name", "last_name", "email", "birthdate", "gender",
                                   "free_pass_used", "token_profile", "history", "scheduled",
                                   "memberships", "settings"}

  /** `to_dict`: the id, and a dict of the other eleven fields. */
  function ToDict(u: User): (entry: (Value, Doc))
    ensures entry.1.Keys == FieldKeys
  {
    (u.userId,
     map["first_name" := u.first,
         "last_name" := u.last,
         "email" := u.email,
         "birthdate" := u.birth,
         "gender" := u.gender,
         "free_pass_used" := Bool(u.freePassUsed),
         "token_profile" := u.tokenProfile,
         "history" := u.history,
         "scheduled" := u.scheduled,
         "memberships" := u.memberships,
         "settings" := u.settings])
  }

  /** `[data.get(key, None) for key in keys]` */
  function Lookups(data: Doc, keys: seq<string>): (vs: seq<Value>)
    ensures |vs| == |keys|
    ensures forall i :: 0 <= i < |keys| ==> vs[i] == Get(data, keys[i])
    decreases |keys|
  {
    if keys == [] then [] else Lookups(data, keys[..|keys| - 1]) + [Get(data, keys[|keys| - 1])]
  }

  predicate HasMandatoryKeys(data: Doc)
  {
    forall k :: k in MandatoryKeys ==> k in data
  }

  /** What `from_dict` returns: `None` when a mandatory key is missing, else
      the user built positionally from the values of `AllKeys`. */
  function Decode(data: Doc): Option<User>
  {
    if HasMandatoryKeys(data) then Some(Construct(Lookups(data, AllKeys))) else None
  }

  /** `User.from_dict`: check the mandatory keys, then collect the values of
      `AllKeys` one by one and call the constructor with them. */
  method FromDict(data: Doc) returns (u: Option<User>)
    ensures u == Decode(data)
  {
    var keys := data.Keys;
    if !(forall k :: k in MandatoryKeys ==> k in keys) {
      // prints 'missing keys' and falls off the end: None
      u := None;
    } else {
      var values: seq<Value> := [];
      var i := 0;
      while i < |AllKeys|
        invariant 0 <= i <= |AllKeys|
        invariant values == Lookups(data, AllKeys[..i])
      {
        assert AllKeys[..i + 1][..i] == AllKeys[..i];
        values := values + [Get(data, AllKeys[i])];
        i := i + 1;
      }
      assert AllKeys[..i] == AllKeys;
      u := Some(Construct(values));
    }
  }

  // ---------------------------------------------------------------------
  // Properties of the mapping

  /** `from_dict` returns no user exactly when one of the mandatory keys is
      missing. */
  lemma DecodeMissingKey(data: Doc)
    ensures Decode(data).None? <==>
            "user_id" !in data || "first_name" !in data || "last_name" !in data ||
            "email" !in data || "birthdate" !in data || "gender" !in data
  {
    MandatoryKeysPresent(data);
  }

  lemma MandatoryKeysPresent(data: Doc)
    ensures HasMandatoryKeys(data) <==>
            "user_id" in data && "first_name" in data && "last_name" in data &&
            "email" in data && "birthdate" in data && "gender" in data
  {
    assert MandatoryKeys[0] == "user_id" && MandatoryKeys[1] == "first_name" && MandatoryKeys[2] == "last_name";
    assert MandatoryKeys[3] == "email" && MandatoryKeys[4] == "birthdate" && MandatoryKeys[5] == "gender";
  }

  /** When the mandatory keys are there, the id is read from "userId", the
      leading fields from their keys, and the other fields default: a record
      without "userId" decodes with a `None` id even if it has "user_id". */
  lemma DecodeFields(data: Doc)
    requires HasMandatoryKeys(data)
    ensures Decode(data).Some?
    ensures Decode(data).value.userId == (if "userId" in data then data["userId"] else Null)
    ensures Decode(data).value.first == data["first_name"] && Decode(data).value.last == data["last_name"]
    ensures Decode(data).value.email == data["email"] && Decode(data).value.birth == data["birthdate"]
    ensures Decode(data).value.gender == data["gender"]
    ensures "free_pass_used" !in data ==> !Decode(data).value.freePassUsed
    ensures "token_profile" !in data ==> Decode(data).value.tokenProfile == EmptyList
    ensures "history" !in data ==> Decode(data).value.history == EmptyList
    ensures "scheduled" !in data ==> Decode(data).value.scheduled == EmptyList
    ensures "memberships" !in data ==> Decode(data).value.memberships == EmptyList
    ensures "settings" !in data ==> Decode(data).value.settings == EmptyDict
  {
    var vs := Lookups(data, AllKeys);
    assert vs[0] == Get(data, "userId");
    assert vs[6] == Get(data, "free_pass_used");
  }

  /** A list of values that agrees with `data.get` key by key is what
      `Lookups` collects. */
  lemma LookupsPointwise(data: Doc, keys: seq<string>, vs: seq<Value>)
    requires |vs| == |keys|
    requires forall i :: 0 <= i < |keys| ==> vs[i] == Get(data, keys[i])
    ensures Lookups(data, keys) == vs
  {
  }

  /** `from_dict` collects the values of `AllKeys` in order. */
  lemma LookupsAll(data: Doc)
    ensures Lookups(data, AllKeys)
         == [Get(data, "userId"), Get(data, "first_name"), Get(data, "last_name"), Get(data, "email"),
             Get(data, "birthdate"), Get(data, "gender"), Get(data, "free_pass_used"),
             Get(data, "token_profile"), Get(data, "history"), Get(data, "scheduled"),
             Get(data, "memberships"), Get(data, "settings")]
  {
    var vs := seq(|AllKeys|, i requires 0 <= i < |AllKeys| => Get(data, AllKeys[i]));
    LookupsPointwise(data, AllKeys, vs);
  }

  /** The entries of a record with the mandatory keys only. */
  lemma MandatoryOnlyEntries(data: Doc, id: Value, first: Value, last: Value, email: Value, birth: Value, gender: Value)
    requires data == map["user_id" := id, "first_name" := first, "last_name" := last,
                         "email" := email, "birthdate" := birth, "gender" := gender]
    ensures data.Keys == {"user_id", "first_name", "last_name", "email", "birthdate", "gender"}
    ensures Get(data, "first_name") == first && Get(data, "last_name") == last
    ensures Get(data, "email") == email && Get(data, "birthdate") == birth && Get(data, "gender") == gender
  {
  }

  /** The values `from_dict` collects from a record with the mandatory keys only. */
  lemma LookupsMandatoryOnly(data: Doc, id: Value, first: Value, last: Value, email: Value, birth: Value, gender: Value)
    requires data == map["user_id" := id, "first_name" := first, "last_name" := last,
                         "email" := email, "birthdate" := birth, "gender" := gender]
    ensures HasMandatoryKeys(data)
    ensures Lookups(data, AllKeys) == [Null, first, last, email, birth, gender, Null, Null, Null, Null, Null, Null]
  {
    MandatoryOnlyEntries(data, id, first, last, email, birth, gender);
    LookupsAll(data);
    var absent := ["userId", "free_pass_used", "token_profile", "history", "scheduled", "memberships", "settings"];
    assert forall k :: k in absent ==> k !in data.Keys;
  }

  /** A record that carries only the mandatory keys decodes to a user with a
      `None` id and default values everywhere else. */
  lemma DecodeMandatoryOnly(id: Value, first: Value, last: Value, email: Value, birth: Value, gender: Value)
    ensures Decode(map["user_id" := id, "first_name" := first, "last_name" := last,
                       "email" := email, "birthdate" := birth, "gender" := gender])
         == Some(User(Null, first, last, email, birth, gender, false,
                      EmptyList, EmptyList, EmptyList, EmptyList, EmptyDict))
  {
    var data := map["user_id" := id, "first_name" := first, "last_name" := last,
                    "email" := email, "birthdate" := birth, "gender" := gender];
    LookupsMandatoryOnly(data, id, first, last, email, birth, gender);
  }

  /** The entries of a stored `to_dict` document, with "user_id" added. */
  lemma StoredEntries(u: User, id: string)
    ensures var data := ToDict(u).1["user_id" := Str(id)];
      "userId" !in data &&
      Get(data, "first_name") == u.first && Get(data, "last_name") == u.last &&
      Get(data, "email") == u.email && Get(data, "birthdate") == u.birth &&
      Get(data, "gender") == u.gender && Get(data, "free_pass_used") == Bool(u.freePassUsed) &&
      Get(data, "token_profile") == u.tokenProfile && Get(data, "history") == u.history &&
      Get(data, "scheduled") == u.scheduled && Get(data, "memberships") == u.memberships &&
      Get(data, "settings") == u.settings
  {
    assert "userId" !in ToDict(u).1.Keys;
  }

  /** The values `from_dict` collects from a stored `to_dict` document. */
  lemma LookupsOfToDict(u: User, id: string)
    ensures Lookups(ToDict(u).1["user_id" := Str(id)], AllKeys)
         == [Null, u.first, u.last, u.email, u.birth, u.gender, Bool(u.freePassUsed),
             u.tokenProfile, u.history, u.scheduled, u.memberships, u.settings]
  {
    StoredEntries(u, id);
    LookupsAll(ToDict(u).1["user_id" := Str(id)]);
  }

  /** Decoding the document `to_dict` writes, with "user_id" added as
      `fetch_user` does, gives back every field but the id, which comes back
      as `None`. */
  lemma DecodeToDict(u: User, id: string)
    requires Normalised(u)
    ensures Decode(ToDict(u).1["user_id" := Str(id)]) == Some(u.(userId := Null))
  {
    var data := ToDict(u).1["user_id" := Str(id)];
    assert HasMandatoryKeys(data) by {
      assert data.Keys == FieldKeys + {"user_id"};
    }
    LookupsOfToDict(u, id);
  }
}
