// Find-or-create of the contact behind a new lead (src/server/contact-resolution.ts and
// duplicateContactWhere in src/lib/contact-matching.ts). Each transaction is serializable,
// so it is one step on the table; a transaction that loses a race is run again, up to three times.
module ContactResolution {
  import opened Text

  /** A contact with its primary number and address and the lists of all stored for it. */
  datatype Contact = Contact(
    primaryPhone: string, phones: seq<string>, primaryEmail: Option<string>, emails: seq<string>,
    company: nat, owner: Option<nat>)

  /** Who is asking: the fields a website request identifies its sender by. */
  datatype Person = Person(phone: string, email: Option<string>, company: nat)

  /**
   * The two functions of other modules: a number in its normal form if it has one, and an address without regard to
   * case.
   */
  datatype Library = Library(normalize: string -> Option<string>, fold: string -> string)

  function TrimmedEmail(p: Person): Option<string> {
    if p.email.Some? && Trim(p.email.value) != "" then Some(Trim(p.email.value)) else None
  }

  function StoredPhone(lib: Library, phone: string): string {
    if lib.normalize(phone).Some? then lib.normalize(phone).value else phone
  }

  function PhoneCandidates(lib: Library, phone: string): set<string> {
    if phone == "" then {}
    else if lib.normalize(phone).Some? && lib.normalize(phone).value != "" then {lib.normalize(phone).value, phone}
    else {phone}
  }

  predicate HasNumber(c: Contact, numbers: set<string>) {
    c.primaryPhone in numbers || exists k :: 0 <= k < |c.phones| && c.phones[k] in numbers
  }

  /** Addresses are compared without regard to case. */
  predicate HasAddress(lib: Library, c: Contact, email: string) {
    || (c.primaryEmail.Some? && lib.fold(c.primaryEmail.value) == lib.fold(email))
    || exists k :: 0 <= k < |c.emails| && lib.fold(c.emails[k]) == lib.fold(email)
  }

  /** The same customer: within the company, one of the contact's numbers or addresses is the person's. */
  predicate Matches(lib: Library, c: Contact, p: Person) {
    && c.company == p.company
    && (|| HasNumber(c, PhoneCandidates(lib, p.phone))
        || (TrimmedEmail(p).Some? && HasAddress(lib, c, TrimmedEmail(p).value)))
  }

  /** The addresses of a contact. */
  function Addresses(c: Contact): seq<string> {
    (if c.primaryEmail.Some? then [c.primaryEmail.value] else []) + c.emails
  }

  /**
   * Who is the same customer, spelled out: a contact of the same company that has the number, as given or in its normal
   * form, or the address, without regard to case and to white space around it.
   */
  lemma MatchesMeans(lib: Library, c: Contact, p: Person)
    ensures Matches(lib, c, p) <==>
              && c.company == p.company
              && (|| (p.phone != ""
                      && exists n :: n in [c.primaryPhone] + c.phones
                                     && (n == p.phone || (n != "" && lib.normalize(p.phone) == Some(n))))
                  || (p.email.Some? && Trim(p.email.value) != ""
                      && exists a :: a in Addresses(c) && lib.fold(a) == lib.fold(Trim(p.email.value))))
  {
    hide Trim;
    NumberMeans(c, PhoneCandidates(lib, p.phone));
    if p.email.Some? {
      AddressMeans(lib, c, Trim(p.email.value));
    }
  }

  lemma NumberMeans(c: Contact, numbers: set<string>)
    ensures HasNumber(c, numbers) <==> exists n :: n in [c.primaryPhone] + c.phones && n in numbers
  {
    var all := [c.primaryPhone] + c.phones;
    assert all[0] == c.primaryPhone;
    if k :| 0 <= k < |c.phones| && c.phones[k] in numbers {
      assert all[k + 1] == c.phones[k];
    }
  }

  lemma AddressMeans(lib: Library, c: Contact, email: string)
    ensures HasAddress(lib, c, email) <==> exists a :: a in Addresses(c) && lib.fold(a) == lib.fold(email)
  {
    var all := Addresses(c);
    var skip := |all| - |c.emails|;
    assert c.primaryEmail.Some? ==> all[0] == c.primaryEmail.value;
    assert forall k :: 0 <= k < |c.emails| ==> all[skip + k] == c.emails[k];
    if HasAddress(lib, c, email) {
      if k :| 0 <= k < |c.emails| && lib.fold(c.emails[k]) == lib.fold(email) {
        assert all[skip + k] in all;
      }
    }
    if a :| a in all && lib.fold(a) == lib.fold(email) {
      var m :| 0 <= m < |all| && all[m] == a;
      assert m >= skip ==> c.emails[m - skip] == a;
    }
  }

  function NewContact(lib: Library, p: Person): Contact {
    var phone, email := StoredPhone(lib, p.phone), TrimmedEmail(p);
    Contact(phone, [phone], email, if email.Some? then [email.value] else [], p.company, None)
  }

  // ---- the query ------------------------------------------------------------------------------

  /** One alternative of the OR of a where clause. */
  datatype Condition =
    | PrimaryPhone(number: string) | AnyPhone(number: string)
    | PrimaryEmail(address: string) | AnyEmail(address: string)

  predicate Holds(lib: Library, c: Contact, condition: Condition) {
    match condition
    case PrimaryPhone(n) => c.primaryPhone == n
    case AnyPhone(n) => exists k :: 0 <= k < |c.phones| && c.phones[k] == n
    case PrimaryEmail(a) => c.primaryEmail.Some? && lib.fold(c.primaryEmail.value) == lib.fold(a)
    case AnyEmail(a) => exists k :: 0 <= k < |c.emails| && lib.fold(c.emails[k]) == lib.fold(a)
  }

  predicate SomeHolds(lib: Library, c: Contact, conditions: seq<Condition>) {
    exists k :: 0 <= k < |conditions| && Holds(lib, c, conditions[k])
  }

  lemma TwoMoreHold(lib: Library, c: Contact, before: seq<Condition>, first: Condition, second: Condition)
    ensures SomeHolds(lib, c, before + [first, second]) <==>
              SomeHolds(lib, c, before) || Holds(lib, c, first)
              || Holds(lib, c, second)
  {
    hide Holds;
    var all := before + [first, second];
    assert all[|before|] == first && all[|before| + 1] == second;
    if SomeHolds(lib, c, before) {
      var k :| 0 <= k < |before| && Holds(lib, c, before[k]);
      assert Holds(lib, c, all[k]);
    }
  }

  lemma NumberHolds(lib: Library, c: Contact, n: string)
    ensures Holds(lib, c, PrimaryPhone(n)) || Holds(lib, c, AnyPhone(n)) <==> HasNumber(c, {n})
    ensures forall others: set<string> :: HasNumber(c, others + {n}) <==> HasNumber(c, others) || HasNumber(c, {n})
  {
  }

  /** The alternatives select the contacts with one of the numbers. */
  ghost predicate Select(lib: Library, conditions: seq<Condition>, numbers: set<string>) {
    forall c :: SomeHolds(lib, c, conditions) <==> HasNumber(c, numbers)
  }

  lemma SelectOneMore(lib: Library, conditions: seq<Condition>, numbers: set<string>, n: string)
    requires Select(lib, conditions, numbers)
    ensures Select(lib, conditions + [PrimaryPhone(n), AnyPhone(n)], numbers + {n})
  {
    hide Holds, SomeHolds, HasNumber;
    forall c ensures SomeHolds(lib, c, conditions + [PrimaryPhone(n), AnyPhone(n)]) <==> HasNumber(c, numbers + {n}) {
      TwoMoreHold(lib, c, conditions, PrimaryPhone(n), AnyPhone(n));
      NumberHolds(lib, c, n);
    }
  }

  /** duplicateContactWhere: the alternatives select exactly the contacts with the number or the address. */
  method DuplicateContactWhere(lib: Library, phone: string, email: Option<string>) returns (conditions: seq<Condition>)
    ensures forall c :: SomeHolds(lib, c, conditions) <==>
              || HasNumber(c, PhoneCandidates(lib, phone))
              || (email.Some? && email.value != "" && HasAddress(lib, c, Trim(email.value)))
    ensures conditions == [] <==> phone == "" && (email.None? || email.value == "")
  {
    hide Holds, SomeHolds, HasNumber, HasAddress;
    conditions := [];
    NothingHolds(lib);
    ghost var numbers: set<string> := {};
    if phone != "" {
      var normalized := lib.normalize(phone);
      var candidates := [phone];
      if normalized.Some? && normalized.value != "" && normalized.value != phone {
        candidates := [normalized.value, phone];
      }
      for i := 0 to |candidates|
        invariant Select(lib, conditions, numbers) && |conditions| == 2 * i
        invariant numbers == if i == 0 then {} else if i == 1 then {candidates[0]} else {candidates[0], candidates[1]}
      {
        var n := candidates[i];
        SelectOneMore(lib, conditions, numbers, n);
        numbers := numbers + {n};
        conditions := conditions + [PrimaryPhone(n), AnyPhone(n)];
      }
    }
    assert numbers == PhoneCandidates(lib, phone);
    if email.Some? && email.value != "" {
      var trimmed := Trim(email.value);
      forall c
        ensures SomeHolds(lib, c, conditions + [PrimaryEmail(trimmed), AnyEmail(trimmed)])
                <==> HasNumber(c, numbers) || HasAddress(lib, c, trimmed)
      {
        TwoMoreHold(lib, c, conditions, PrimaryEmail(trimmed), AnyEmail(trimmed));
        AddressHolds(lib, c, trimmed);
      }
      conditions := conditions + [PrimaryEmail(trimmed), AnyEmail(trimmed)];
    }
  }

  lemma NothingHolds(lib: Library)
    ensures Select(lib, [], {}) && forall c :: !SomeHolds(lib, c, [])
  {
  }

  lemma AddressHolds(lib: Library, c: Contact, a: string)
    ensures Holds(lib, c, PrimaryEmail(a)) || Holds(lib, c, AnyEmail(a)) <==> HasAddress(lib, c, a)
  {
  }

  /** tx.contact.findFirst with the company and the alternatives. */
  method FindFirstMatch(lib: Library, contacts: seq<Contact>, p: Person) returns (i: nat)
    ensures i == FirstMatch(lib, contacts, p)
  {
    hide Holds, SomeHolds, HasNumber, HasAddress;
    var email := TrimmedEmail(p);
    var conditions := DuplicateContactWhere(lib, p.phone, email);
    if email.Some? {
      TrimIsTrimmed(p.email.value);
    }
    i := |contacts|;
    if conditions == [] {
      assert forall c :: !SomeHolds(lib, c, conditions) by { NothingHolds(lib); }
    } else {
      i := 0;
      while i < |contacts| && !(contacts[i].company == p.company && SomeHolds(lib, contacts[i], conditions))
        invariant i <= |contacts| && forall k :: 0 <= k < i ==> !Matches(lib, contacts[k], p)
      {
        i := i + 1;
      }
    }
    FirstMatchIsLeast(lib, contacts, p);
  }

  lemma {:induction false} FirstMatchIsLeast(lib: Library, contacts: seq<Contact>, p: Person)
    ensures forall k :: 0 <= k < FirstMatch(lib, contacts, p) ==> !Matches(lib, contacts[k], p)
  {
    hide Matches;
    if contacts != [] {
      FirstMatchIsLeast(lib, contacts[1..], p);
      forall k | 0 < k < |contacts| ensures contacts[1..][k - 1] == contacts[k] {
      }
    }
  }

  /** A stored normal form is never empty, and a request always has a phone (the route's schema). */
  ghost predicate IsReachable(lib: Library, p: Person) {
    p.phone != "" && lib.normalize(p.phone) != Some("")
  }

  /** The contact made for a person is found again by the same person. */
  lemma NewContactMatches(lib: Library, p: Person)
    requires IsReachable(lib, p)
    ensures Matches(lib, NewContact(lib, p), p)
  {
    assert NewContact(lib, p).primaryPhone in PhoneCandidates(lib, p.phone);
  }

  /**
   * The contact made for a person belongs to nobody yet, and everyone of the company who gives the same number, in any
   * spelling with the same normal form, or the same address, in upper or lower case, is recognised as that contact.
   */
  lemma NewContactIsFound(lib: Library, p: Person, other: Person)
    requires IsReachable(lib, p) && IsReachable(lib, other) && other.company == p.company
    requires || other.phone == p.phone
             || (lib.normalize(p.phone).Some? && lib.normalize(other.phone) == lib.normalize(p.phone))
             || (p.email.Some? && other.email.Some? && Trim(p.email.value) != "" && Trim(other.email.value) != ""
                 && lib.fold(Trim(p.email.value)) == lib.fold(Trim(other.email.value)))
    ensures Matches(lib, NewContact(lib, p), other) && NewContact(lib, p).owner.None?
    ensures var c := NewContact(lib, p);
            && c.primaryPhone == (if lib.normalize(p.phone).Some? then lib.normalize(p.phone).value else p.phone)
            && c.phones == [c.primaryPhone]
            && (if p.email.Some? && Trim(p.email.value) != ""
                then c.primaryEmail == Some(Trim(p.email.value)) && c.emails == [Trim(p.email.value)]
                else c.primaryEmail.None? && c.emails == [])
  {
    var c := NewContact(lib, p);
    if || other.phone == p.phone
       || (lib.normalize(p.phone).Some? && lib.normalize(other.phone) == lib.normalize(p.phone)) {
      assert c.primaryPhone in PhoneCandidates(lib, other.phone);
    }
  }

  predicate HasMatch(lib: Library, contacts: seq<Contact>, p: Person) {
    exists i :: 0 <= i < |contacts| && Matches(lib, contacts[i], p)
  }

  function FirstMatch(lib: Library, contacts: seq<Contact>, p: Person): (i: nat)
    ensures i <= |contacts|
    ensures i < |contacts| <==> HasMatch(lib, contacts, p)
    ensures i < |contacts| ==> Matches(lib, contacts[i], p)
  {
    if contacts == [] then 0
    else if Matches(lib, contacts[0], p) then 0
    else
      var i := FirstMatch(lib, contacts[1..], p);
      assert forall k :: 1 <= k < |contacts| ==> contacts[k] == contacts[1..][k - 1];
      i + 1
  }

  /** The transaction: the table afterwards. */
  function FindOrCreate(lib: Library, contacts: seq<Contact>, p: Person): seq<Contact> {
    if HasMatch(lib, contacts, p) then contacts else contacts + [NewContact(lib, p)]
  }

  /** Asking again creates nothing more. */
  lemma FindOrCreateOnce(lib: Library, contacts: seq<Contact>, p: Person)
    requires IsReachable(lib, p)
    ensures var once := FindOrCreate(lib, contacts, p);
            HasMatch(lib, once, p) && FindOrCreate(lib, once, p) == once
  {
    if !HasMatch(lib, contacts, p) {
      NewContactMatches(lib, p);
      assert Matches(lib, (contacts + [NewContact(lib, p)])[|contacts|], p);
    }
  }

  datatype TxOutcome = Commits | Conflicts | Errors

  datatype Resolved = Resolved(contact: nat, isNew: bool)

  class ContactTable {
    var contacts: seq<Contact>

    /** `outcomes` are those of the three attempts, as the database would decide them. */
    method ResolveContactForNewLead(lib: Library, p: Person, outcomes: seq<TxOutcome>)
      returns (result: Option<Resolved>, attempts: nat)
      requires |outcomes| == 3
      modifies this
      ensures 1 <= attempts <= 3 && forall k :: 0 <= k < attempts - 1 ==> outcomes[k] == Conflicts
      ensures attempts < 3 ==> outcomes[attempts - 1] != Conflicts
      ensures result.Some? <==> outcomes[attempts - 1] == Commits
      ensures result.None? ==> contacts == old(contacts)
      ensures result.Some? ==>
                && contacts == FindOrCreate(lib, old(contacts), p)
                && result.value.contact < |contacts|
                && (result.value.isNew <==> !HasMatch(lib, old(contacts), p))
                && (if result.value.isNew then result.value.contact == |old(contacts)|
                    else Matches(lib, contacts[result.value.contact], p))
    {
      attempts := 1;
      while true
        invariant 1 <= attempts <= 3 && contacts == old(contacts)
        invariant forall k :: 0 <= k < attempts - 1 ==> outcomes[k] == Conflicts
        decreases 3 - attempts
      {
        match outcomes[attempts - 1] {
          case Commits =>
            var existing := FindFirstMatch(lib, contacts, p);
            if existing < |contacts| {
              return Some(Resolved(existing, false)), attempts;
            }
            contacts := contacts + [NewContact(lib, p)];
            return Some(Resolved(|contacts| - 1, true)), attempts;
          case Conflicts =>
            if attempts == 3 {
              return None, attempts;
            }
          case Errors =>
            return None, attempts;
        }
        attempts := attempts + 1;
      }
    }
  }
}
