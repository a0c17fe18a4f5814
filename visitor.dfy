/** `Person` and its subclass `Visitor`. Dafny has no class inheritance here,
    so the one class `Visitor` carries the three fields a visitor inherits from
    `Person` (name, age, id) beside its own two (membership level, tickets).
    None of the setters validates its argument. */
module Visitors {
  import opened JavaLang

  /** The fields of one visitor at one moment: what a comparator compares and
      what a line of the CSV history file holds. */
  datatype VisitorData = VisitorData(
    name: string,
    age: int32,
    id: string,
    membershipLevel: string,
    tickets: int32)

  class Visitor {
    // Declared in Person.
    var name: string
    var age: int32
    var id: string
    // Declared in Visitor.
    var membershipLevel: string
    var tickets: int32

    function Data(): VisitorData
      reads this
    {
      VisitorData(name, age, id, membershipLevel, tickets)
    }

    /** `new Visitor(name, age, id, membershipLevel)`: the fields as given, one ticket. */
    constructor (name: string, age: int32, id: string, membershipLevel: string)
      ensures Data() == VisitorData(name, age, id, membershipLevel, 1)
    {
      this.name := name;
      this.age := age;
      this.id := id;
      this.membershipLevel := membershipLevel;
      this.tickets := 1;
    }

    /** `new Visitor(name, age, id, membershipLevel, tickets)`: the fields as
        given, a negative ticket count included. */
    constructor WithTickets(name: string, age: int32, id: string, membershipLevel: string, tickets: int32)
      ensures Data() == VisitorData(name, age, id, membershipLevel, tickets)
    {
      this.name := name;
      this.age := age;
      this.id := id;
      this.membershipLevel := membershipLevel;
      this.tickets := tickets;
    }

    method GetName() returns (r: string)
      ensures r == name
    {
      r := name;
    }

    method SetName(name: string)
      modifies this`name
      ensures Data() == old(Data()).(name := name)
    {
      this.name := name;
    }

    method GetAge() returns (r: int32)
      ensures r == age
    {
      r := age;
    }

    /** Any `int` is stored, negative ages and ages above any human limit included. */
    method SetAge(age: int32)
      modifies this`age
      ensures Data() == old(Data()).(age := age)
    {
      this.age := age;
    }

    method GetId() returns (r: string)
      ensures r == id
    {
      r := id;
    }

    method SetId(id: string)
      modifies this`id
      ensures Data() == old(Data()).(id := id)
    {
      this.id := id;
    }

    method GetMembershipLevel() returns (r: string)
      ensures r == membershipLevel
    {
      r := membershipLevel;
    }

    method SetMembershipLevel(membershipLevel: string)
      modifies this`membershipLevel
      ensures Data() == old(Data()).(membershipLevel := membershipLevel)
    {
      this.membershipLevel := membershipLevel;
    }

    method GetTickets() returns (r: int32)
      ensures r == tickets
    {
      r := tickets;
    }

    /** Any `int` is stored, negative counts included. */
    method SetTickets(tickets: int32)
      modifies this`tickets
      ensures Data() == old(Data()).(tickets := tickets)
    {
      this.tickets := tickets;
    }

    /** `equals`: the same object, or another visitor with the same id and name;
        never equal to null. */
    predicate Equals(other: Visitor?)
      reads this, other
      ensures Equals(other) <==> other != null && id == other.id && name == other.name
    {
      other != null && (this == other || (id == other.id && name == other.name))
    }

    /** `hashCode`: the hash of the id alone. */
    function HashCode(): int32
      reads this
    {
      StringHashCode(id)
    }
  }

  /** Age, membership level and tickets do not take part in equality. */
  lemma EqualsIgnoresOtherFields(a: Visitor, b: Visitor, c: Visitor)
    requires c.id == b.id && c.name == b.name
    ensures a.Equals(b) <==> a.Equals(c)
  {
  }

  lemma EqualsIsReflexive(a: Visitor)
    ensures a.Equals(a)
  {
  }

  lemma EqualsIsSymmetric(a: Visitor, b: Visitor)
    ensures a.Equals(b) <==> b.Equals(a)
  {
  }

  lemma EqualsIsTransitive(a: Visitor, b: Visitor, c: Visitor)
    requires a.Equals(b) && b.Equals(c)
    ensures a.Equals(c)
  {
  }

  /** Equal visitors have equal hash codes. */
  lemma HashCodeAgreesWithEquals(a: Visitor, b: Visitor)
    requires a.Equals(b)
    ensures a.HashCode() == b.HashCode()
  {
  }
}
