/** The user accessors of the MusFit backend over the "Users" collection of
    the document store: `create_profile`, `fetch_user` and `delete_user`.
    The collection is a map from document id to document; a `UserStore`
    object holds it, and the accessors read and replace it. */
module Profiles {
  import opened Values
  import opened Identity
  import opened Email
  import opened Birth
  import opened Users

  /** The "Users" collection: document id to document. */
  type Collection = map<string, Doc>

  /** What `create_profile` does: return a bool, or raise. */
  datatype Outcome = Returned(ok: bool) | Raised(error: PyError)

  /** What `fetch_user` returns: `False` for an absent id, else what
      `User.from_dict` returns (a user, or `None`). */
  datatype Fetched = DoesNotExist | Decoded(user: Option<User>)

  /** `[member]`, with `None` for a missing flag. */
  function MemberValue(member: Option<bool>): Value
  {
    match member
    case Some(b) => Bool(b)
    case None => Null
  }

  /** `User(user_id, first_name, last_name, email, birth_dt, gender, memberships=[member])` */
  function NewProfile(id: string, first: string, last: string, email: string, date: Date,
                      gender: string, member: Option<bool>): User
  {
    NewUser(Str(id), Str(first), Str(last), Str(email), DateTime(date), Str(gender),
            Bool(false), Null, Null, Null, List([MemberValue(member)]), Null)
  }

  /** The effect of `create_profile` on the collection, and its outcome, in the
      order the source checks: the email, an existing id, the birth date,
      the gender; then one write keyed by the derived id. */
  function Create(users: Collection, first: string, last: string, email: string, birth: string,
                  gender: string, member: Option<bool>): (Outcome, Collection)
  {
    var id := HashName(first, last);
    if !IsValidEmail(email) then (Returned(false), users)
    else if id in users then (Returned(false), users)
    else match ParseBirth(birth)
      case Err(e) => (Raised(e), users)
      case Ok(date) =>
        if gender != "Male" && gender != "Female" then (Raised(AssertionError), users)
        else (Returned(true), users[id := ToDict(NewProfile(id, first, last, email, date, gender, member)).1])
  }

  /** What `fetch_user` returns. */
  function Fetch(users: Collection, id: string): Fetched
  {
    if id in users then Decoded(Decode(users[id]["user_id" := Str(id)])) else DoesNotExist
  }

  class UserStore {
    /** The documents of the "Users" collection. */
    var users: Collection

    constructor (initial: Collection)
      ensures users == initial
    {
      users := initial;
    }

    /** `create_profile`. The duplicate check streams the collection and
        compares each document id with the derived one; the stream's order is
        not fixed, so the scan picks the ids in any order. */
    method CreateProfile(first: string, last: string, email: string, birth: string,
                         gender: string, member: Option<bool>) returns (r: Outcome)
      modifies this
      ensures (r, users) == Create(old(users), first, last, email, birth, gender, member)
    {
      var id := HashName(first, last);
      if !IsValidEmail(email) {
        return Returned(false);
      }
      var pending := users.Keys;
      while pending != {}
        invariant pending <= users.Keys
        invariant id !in users.Keys - pending
        decreases pending
      {
        var other :| other in pending;
        if other == id {
          return Returned(false);
        }
        pending := pending - {other};
      }
      var parsed := ParseBirth(birth);
      if parsed.Err? {
        return Raised(parsed.error);
      }
      if gender != "Male" && gender != "Female" {
        return Raised(AssertionError);
      }
      var entry := ToDict(NewProfile(id, first, last, email, parsed.value, gender, member));
      users := users[entry.0.s := entry.1];
      r := Returned(true);
    }

    /** `fetch_user`: the stored document with "user_id" set to the id, decoded
        by `User.from_dict`; `False` for an absent id. */
    method FetchUser(id: string) returns (r: Fetched)
      ensures r == Fetch(users, id)
    {
      if id in users {
        var fetched := users[id]["user_id" := Str(id)];
        var u := FromDict(fetched);
        r := Decoded(u);
      } else {
        r := DoesNotExist;
      }
    }

    /** `delete_user`: remove the document when it exists; the result stands
        for the store's write result (`true`) or `None` (`false`). */
    method DeleteUser(id: string) returns (deleted: bool)
      modifies this
      ensures deleted == (id in old(users))
      ensures users == old(users) - {id}
    {
      if id in users {
        users := users - {id};
        deleted := true;
      } else {
        deleted := false;
      }
    }
  }

  // ---------------------------------------------------------------------
  // Properties of the accessors

  /** An invalid email returns False and writes nothing. */
  lemma CreateRejectsInvalidEmail(users: Collection, first: string, last: string, email: string,
                                  birth: string, gender: string, member: Option<bool>)
    requires !IsValidEmail(email)
    ensures Create(users, first, last, email, birth, gender, member) == (Returned(false), users)
  {
  }

  /** An id already in the collection returns False and writes nothing. */
  lemma CreateRejectsDuplicate(users: Collection, first: string, last: string, email: string,
                               birth: string, gender: string, member: Option<bool>)
    requires HashName(first, last) in users
    ensures Create(users, first, last, email, birth, gender, member).1 == users
    ensures Create(users, first, last, email, birth, gender, member).0 == Returned(false)
  {
  }

  /** A birth date that does not parse, and a gender other than "Male" or
      "Female", raise and write nothing. */
  lemma CreateRaisesOnBadInput(users: Collection, first: string, last: string, email: string,
                               birth: string, gender: string, member: Option<bool>)
    requires IsValidEmail(email) && HashName(first, last) !in users
    ensures ParseBirth(birth).Err? ==>
      Create(users, first, last, email, birth, gender, member) == (Raised(ParseBirth(birth).error), users)
    ensures |Split(birth, '-')| < 3 ==>
      Create(users, first, last, email, birth, gender, member) == (Raised(IndexError), users)
    ensures ParseBirth(birth).Ok? && gender != "Male" && gender != "Female" ==>
      Create(users, first, last, email, birth, gender, member) == (Raised(AssertionError), users)
  {
  }

  /** Creation succeeds exactly when all four checks pass, and then it adds
      one document, under the derived id, and leaves the others alone. */
  lemma CreateSucceeds(users: Collection, first: string, last: string, email: string,
                       birth: string, gender: string, member: Option<bool>)
    ensures var (r, users') := Create(users, first, last, email, birth, gender, member);
      (r == Returned(true) <==>
         IsValidEmail(email) && HashName(first, last) !in users && ParseBirth(birth).Ok? &&
         (gender == "Male" || gender == "Female")) &&
      (r != Returned(true) ==> users' == users) &&
      (r == Returned(true) ==>
         users'.Keys == users.Keys + {HashName(first, last)} &&
         HashName(first, last) !in users &&
         forall other :: other in users ==> users'[other] == users[other])
  {
  }

  /** A successful creation writes the profile under the derived id. */
  lemma CreateWrites(users: Collection, first: string, last: string, email: string,
                     birth: string, gender: string, member: Option<bool>)
    requires Create(users, first, last, email, birth, gender, member).0 == Returned(true)
    ensures ParseBirth(birth).Ok?
    ensures var id := HashName(first, last);
      Create(users, first, last, email, birth, gender, member).1 ==
        users[id := ToDict(NewProfile(id, first, last, email, ParseBirth(birth).value, gender, member)).1]
  {
  }

  /** The fields `to_dict` writes for a new profile. */
  lemma ProfileDocument(id: string, first: string, last: string, email: string, date: Date,
                        gender: string, member: Option<bool>)
    ensures var doc := ToDict(NewProfile(id, first, last, email, date, gender, member)).1;
      doc.Keys == FieldKeys &&
      doc["first_name"] == Str(first) && doc["last_name"] == Str(last) &&
      doc["email"] == Str(email) && doc["gender"] == Str(gender) &&
      doc["birthdate"] == DateTime(date) &&
      doc["free_pass_used"] == Bool(false) &&
      doc["memberships"] == List([MemberValue(member)]) &&
      doc["token_profile"] == EmptyList && doc["history"] == EmptyList &&
      doc["scheduled"] == EmptyList && doc["settings"] == EmptyDict
  {
  }

  /** The document a successful creation writes: the names, the email and
      the gender as given, the parsed birth date, `free_pass_used` False,
      `memberships` the one-element list `[member]`, and empty token
      profile, history, scheduled list and settings. */
  lemma CreatedDocument(users: Collection, first: string, last: string, email: string,
                        birth: string, gender: string, member: Option<bool>)
    requires Create(users, first, last, email, birth, gender, member).0 == Returned(true)
    ensures var doc := Create(users, first, last, email, birth, gender, member).1[HashName(first, last)];
      var date := ParseBirth(birth).value;
      doc.Keys == FieldKeys &&
      doc["first_name"] == Str(first) && doc["last_name"] == Str(last) &&
      doc["email"] == Str(email) && doc["gender"] == Str(gender) &&
      doc["birthdate"] == DateTime(date) &&
      doc["free_pass_used"] == Bool(false) &&
      doc["memberships"] == List([MemberValue(member)]) &&
      doc["token_profile"] == EmptyList && doc["history"] == EmptyList &&
      doc["scheduled"] == EmptyList && doc["settings"] == EmptyDict
  {
    CreateWrites(users, first, last, email, birth, gender, member);
    ProfileDocument(HashName(first, last), first, last, email, ParseBirth(birth).value, gender, member);
  }

  /** A created profile fetches back as the user that was written, with the
      id `None` (`from_dict` reads "userId"). */
  lemma CreateThenFetch(users: Collection, first: string, last: string, email: string,
                        birth: string, gender: string, member: Option<bool>)
    requires Create(users, first, last, email, birth, gender, member).0 == Returned(true)
    ensures var id := HashName(first, last);
      var u := NewProfile(id, first, last, email, ParseBirth(birth).value, gender, member);
      Fetch(Create(users, first, last, email, birth, gender, member).1, id) == Decoded(Some(u.(userId := Null)))
  {
    var id := HashName(first, last);
    var u := NewProfile(id, first, last, email, ParseBirth(birth).value, gender, member);
    CreateWrites(users, first, last, email, birth, gender, member);
    DecodeToDict(u, id);
  }

  /** `fetch_user` returns False for an absent id and otherwise the decoding
      of the stored document with "user_id" added, which always carries that
      mandatory key. */
  lemma FetchCases(users: Collection, id: string)
    ensures id !in users <==> Fetch(users, id) == DoesNotExist
    ensures id in users ==>
      Fetch(users, id).Decoded? &&
      (Fetch(users, id).user.None? <==>
         "first_name" !in users[id] || "last_name" !in users[id] || "email" !in users[id] ||
         "birthdate" !in users[id] || "gender" !in users[id])
  {
    if id in users {
      DecodeMissingKey(users[id]["user_id" := Str(id)]);
    }
  }

  /** `delete_user` on an absent id changes nothing; otherwise it removes that
      id only, after which it fetches as absent. */
  lemma DeleteEffect(users: Collection, id: string, other: string)
    ensures id !in users ==> users - {id} == users
    ensures Fetch(users - {id}, id) == DoesNotExist
    ensures other != id ==> Fetch(users - {id}, other) == Fetch(users, other)
  {
  }

  /** Every document is one that `create_profile` could have written: it has
      the eleven fields of `to_dict`. */
  ghost predicate ProfilesOnly(users: Collection)
  {
    forall id :: id in users ==> FieldKeys <= users[id].Keys
  }

  /** Creation and deletion keep a collection of profiles one, and a
      collection of profiles never fetches as `None`. */
  lemma ProfilesOnlyPreserved(users: Collection, first: string, last: string, email: string,
                              birth: string, gender: string, member: Option<bool>, id: string)
    requires ProfilesOnly(users)
    ensures ProfilesOnly(Create(users, first, last, email, birth, gender, member).1)
    ensures ProfilesOnly(users - {id})
    ensures id in users ==> Fetch(users, id).Decoded? && Fetch(users, id).user.Some?
  {
    if id in users {
      FetchCases(users, id);
    }
  }

  /** The four checks passing, creation adds the derived id to the collection. */
  lemma CreateAccepted(users: Collection, first: string, last: string, email: string,
                       birth: string, gender: string, member: Option<bool>, id: string)
    requires id == HashName(first, last) && id !in users
    requires IsValidEmail(email) && ParseBirth(birth).Ok? && (gender == "Male" || gender == "Female")
    ensures Create(users, first, last, email, birth, gender, member).0 == Returned(true)
    ensures Create(users, first, last, email, birth, gender, member).1.Keys == users.Keys + {id}
  {
  }

  /** The first sample profile, on an empty collection. */
  lemma FirstSample()
    ensures Create(map[], "Abdelrahman", "Alkhawas", "abderlahman_khawas@hotmail.com",
                   "04-10-2001", "Male", Some(false)).0 == Returned(true)
    ensures Create(map[], "Abdelrahman", "Alkhawas", "abderlahman_khawas@hotmail.com",
                   "04-10-2001", "Male", Some(false)).1.Keys == {"Abd11Alk8"}
  {
    assert HashName("Abdelrahman", "Alkhawas") == "Abd11Alk8" by { HashNameExample(); }
    assert IsValidEmail("abderlahman_khawas@hotmail.com") by { SampleAddressesAccepted(); }
    assert ParseBirth("04-10-2001").Ok? by { ParseExample(); }
    CreateAccepted(map[], "Abdelrahman", "Alkhawas", "abderlahman_khawas@hotmail.com",
                   "04-10-2001", "Male", Some(false), "Abd11Alk8");
  }

  /** The second sample profile, after the first. */
  lemma SecondSample(s1: Collection)
    requires s1.Keys == {"Abd11Alk8"}
    ensures Create(s1, "Ahmed", "Abdelaziz", "ahmed.ym.tawfik@gmail.com",
                   "19-07-2002", "Male", Some(false)).0 == Returned(true)
    ensures Create(s1, "Ahmed", "Abdelaziz", "ahmed.ym.tawfik@gmail.com",
                   "19-07-2002", "Male", Some(false)).1.Keys == {"Abd11Alk8", "Ahm5Abd9"}
  {
    assert "Ahm5Abd9" !in s1 by { assert "Ahm5Abd9" != "Abd11Alk8"; }
    assert HashName("Ahmed", "Abdelaziz") == "Ahm5Abd9" by { SampleIds(); }
    assert IsValidEmail("ahmed.ym.tawfik@gmail.com") by { SampleAddressesAccepted(); }
    assert ParseBirth("19-07-2002").Ok? by { SampleBirthDates(); }
    CreateAccepted(s1, "Ahmed", "Abdelaziz", "ahmed.ym.tawfik@gmail.com",
                   "19-07-2002", "Male", Some(false), "Ahm5Abd9");
  }

  /** The third sample profile, after the other two. */
  lemma ThirdSample(s2: Collection)
    requires s2.Keys == {"Abd11Alk8", "Ahm5Abd9"}
    ensures Create(s2, "Omar", "Zeid", "omar.kmaz@gmail.com",
                   "21-09-2000", "Male", Some(false)).0 == Returned(true)
    ensures Create(s2, "Omar", "Zeid", "omar.kmaz@gmail.com",
                   "21-09-2000", "Male", Some(false)).1.Keys == {"Abd11Alk8", "Ahm5Abd9", "Oma4Zei4"}
  {
    assert "Oma4Zei4" !in s2 by { assert "Oma4Zei4" != "Abd11Alk8" && "Oma4Zei4"[0] != "Ahm5Abd9"[0]; }
    assert HashName("Omar", "Zeid") == "Oma4Zei4" by { SampleIds(); }
    assert IsValidEmail("omar.kmaz@gmail.com") by { SampleAddressesAccepted(); }
    assert ParseBirth("21-09-2000").Ok? by { SampleBirthDates(); }
    CreateAccepted(s2, "Omar", "Zeid", "omar.kmaz@gmail.com",
                   "21-09-2000", "Male", Some(false), "Oma4Zei4");
  }

  /** The three sample profiles the module creates at import time, in
      order, all succeed on an empty collection, under the ids "Abd11Alk8",
      "Ahm5Abd9" and "Oma4Zei4". */
  lemma SampleProfiles()
    ensures var (r1, s1) := Create(map[], "Abdelrahman", "Alkhawas", "abderlahman_khawas@hotmail.com",
                                   "04-10-2001", "Male", Some(false));
      var (r2, s2) := Create(s1, "Ahmed", "Abdelaziz", "ahmed.ym.tawfik@gmail.com",
                             "19-07-2002", "Male", Some(false));
      var (r3, s3) := Create(s2, "Omar", "Zeid", "omar.kmaz@gmail.com",
                             "21-09-2000", "Male", Some(false));
      r1 == r2 == r3 == Returned(true) && s3.Keys == {"Abd11Alk8", "Ahm5Abd9", "Oma4Zei4"}
  {
    FirstSample();
    var s1 := Create(map[], "Abdelrahman", "Alkhawas", "abderlahman_khawas@hotmail.com",
                     "04-10-2001", "Male", Some(false)).1;
    SecondSample(s1);
    var s2 := Create(s1, "Ahmed", "Abdelaziz", "ahmed.ym.tawfik@gmail.com",
                     "19-07-2002", "Male", Some(false)).1;
    ThirdSample(s2);
  }
}
