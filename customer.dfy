/** Customers, the contacts they own and the opportunities that reference
    them (entity/Customer.java, with the back-reference of entity/Contact.java). */
module Customers {
  import opened Base
  import Opportunities

  /** A contact person; `customer` is the owning side of Customer.contacts. */
  class Contact {
    var firstName: string
    var lastName: string
    var email: Option<string>
    var customer: Customer?

    constructor (firstName: string, lastName: string)
      ensures this.firstName == firstName && this.lastName == lastName
      ensures email == None && customer == null
    {
      this.firstName := firstName;
      this.lastName := lastName;
      email := None;
      customer := null;
    }
  }

  /** Adds up the values of a set of opportunities, as a stream reduce over
      BigDecimal.add from zero does: a null value makes the add throw, which
      is None here. */
  function AddValue(value: Option<real>, sum: Option<real>): Option<real>
  {
    if value.Some? && sum.Some? then Some(value.value + sum.value) else None
  }

  ghost function SumValues(opportunities: set<Opportunities.Opportunity>): Option<real>
    reads opportunities
  {
    if opportunities == {} then Some(0.0)
    else
      var o :| o in opportunities;
      AddValue(o.value, SumValues(opportunities - {o}))
  }

  /** The sum does not depend on the order the set is walked in: taking any
      member out first gives the same total. */
  lemma {:induction false} SumValuesRemove(opportunities: set<Opportunities.Opportunity>, o: Opportunities.Opportunity)
    requires o in opportunities
    ensures SumValues(opportunities) == AddValue(o.value, SumValues(opportunities - {o}))
    decreases |opportunities|
  {
    var p :| p in opportunities && SumValues(opportunities) == AddValue(p.value, SumValues(opportunities - {p}));
    if p != o {
      var rest := opportunities - {p} - {o};
      assert opportunities - {o} - {p} == rest;
      SumValuesRemove(opportunities - {p}, o);
      SumValuesRemove(opportunities - {o}, p);
      AddValueSwap(p.value, o.value, SumValues(rest));
    }
  }

  /** Adding two values in either order gives the same sum. */
  lemma AddValueSwap(a: Option<real>, b: Option<real>, sum: Option<real>)
    ensures AddValue(a, AddValue(b, sum)) == AddValue(b, AddValue(a, sum))
  {
  }

  /** The total of no opportunities is zero, and adding an opportunity adds its value. */
  lemma SumValuesAdd(opportunities: set<Opportunities.Opportunity>, o: Opportunities.Opportunity)
    requires o !in opportunities
    ensures SumValues({}) == Some(0.0)
    ensures SumValues(opportunities + {o}) == AddValue(o.value, SumValues(opportunities))
  {
    SumValuesRemove(opportunities + {o}, o);
    assert opportunities + {o} - {o} == opportunities;
  }

  /** The total is defined exactly when every opportunity has a value, and
      then it is non-negative if every value is. */
  lemma {:induction false} SumValuesDefined(opportunities: set<Opportunities.Opportunity>)
    ensures SumValues(opportunities).Some? <==> forall o :: o in opportunities ==> o.value.Some?
    ensures (forall o :: o in opportunities ==> o.value.Some? && o.value.value >= 0.0)
            ==> SumValues(opportunities).Some? && SumValues(opportunities).value >= 0.0
    decreases |opportunities|
  {
    if opportunities != {} {
      var o :| o in opportunities;
      SumValuesRemove(opportunities, o);
      SumValuesDefined(opportunities - {o});
      assert (forall q :: q in opportunities ==> q.value.Some?) <==>
             o.value.Some? && forall q :: q in opportunities - {o} ==> q.value.Some?;
    }
  }

  class Customer {
    var companyName: string
    var contacts: set<Contact>
    var opportunities: set<Opportunities.Opportunity>

    constructor (companyName: string)
      ensures this.companyName == companyName && contacts == {} && opportunities == {}
      ensures TotalOpportunityValue() == Some(0.0)
    {
      this.companyName := companyName;
      contacts := {};
      opportunities := {};
    }

    /** addContact: put the contact in the set and point it back at this customer. */
    method AddContact(contact: Contact)
      modifies this`contacts, contact`customer
      ensures contacts == old(contacts) + {contact}
      ensures contact.customer == this
      ensures old(contact in contacts) ==> contacts == old(contacts)
    {
      contacts := contacts + {contact};
      contact.customer := this;
    }

    /** removeContact: drop the contact from the set and clear its back-reference,
        even when it was not this customer's contact. */
    method RemoveContact(contact: Contact)
      modifies this`contacts, contact`customer
      ensures contacts == old(contacts) - {contact}
      ensures contact.customer == null
    {
      contacts := contacts - {contact};
      contact.customer := null;
    }

    /** Adding a contact that was not there and removing it again restores the
        contact set (the contact is left without a customer). */
    method AddThenRemoveContact(contact: Contact)
      requires contact !in contacts
      modifies this`contacts, contact`customer
      ensures contacts == old(contacts) && contact.customer == null
    {
      AddContact(contact);
      RemoveContact(contact);
    }

    /** getTotalOpportunityValue: the sum of the opportunities' values; zero
        for none, and the reduce throws (None) when some value is null. */
    ghost function TotalOpportunityValue(): (total: Option<real>)
      reads this, opportunities
      ensures opportunities == {} ==> total == Some(0.0)
      ensures total.Some? <==> forall o :: o in opportunities ==> o.value.Some?
      ensures (forall o :: o in opportunities ==> o.value.Some? && o.value.value >= 0.0)
              ==> total.Some? && total.value >= 0.0
    {
      SumValuesDefined(opportunities);
      SumValues(opportunities)
    }
  }
}
