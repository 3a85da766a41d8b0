/** Leads and their conversion into a customer and an opportunity
    (entity/Lead.java). */
module Leads {
  import opened Base
  import Users
  import Customers
  import Opportunities

  /** LeadStatus: the code names NEW, QUALIFIED and CONVERTED; the enum's
      other constants are kept by name. */
  datatype LeadStatus = New | Qualified | Converted | OtherLeadStatus(name: string)

  class Lead {
    var firstName: string
    var lastName: string
    var companyName: Option<string>
    var email: Option<string>
    var phone: Option<string>
    var status: LeadStatus
    var estimatedValue: Option<real>
    var expectedCloseDate: Option<Date>
    var assignedTo: Users.User?
    var notes: Option<string>
    var isConverted: bool
    var convertedAt: Option<Date>
    var convertedCustomer: Customers.Customer?
    var convertedOpportunity: Opportunities.Opportunity?

    /** A new lead with the builder's defaults: NEW and not converted. */
    constructor (firstName: string, lastName: string)
      ensures this.firstName == firstName && this.lastName == lastName
      ensures status == New && !isConverted
      ensures convertedAt == None && convertedCustomer == null && convertedOpportunity == null
      ensures companyName == None && email == None && phone == None && notes == None
      ensures estimatedValue == None && expectedCloseDate == None && assignedTo == null
    {
      this.firstName := firstName;
      this.lastName := lastName;
      companyName := None;
      email := None;
      phone := None;
      status := New;
      estimatedValue := None;
      expectedCloseDate := None;
      assignedTo := null;
      notes := None;
      isConverted := false;
      convertedAt := None;
      convertedCustomer := null;
      convertedOpportunity := null;
    }

    /** getFullName. */
    function FullName(): (r: string)
      reads this
      ensures |r| == |firstName| + 1 + |lastName|
      ensures r[..|firstName|] == firstName && r[|firstName|] == ' ' && r[|firstName| + 1..] == lastName
    {
      firstName + " " + lastName
    }

    /** isQualified. */
    predicate IsQualified()
      reads this
      ensures IsQualified() <==> status == Qualified
    {
      status == Qualified
    }

    /** convertToCustomer: mark the lead converted today and record what it
        became. There is no guard: a converted lead is converted again, its
        date and references overwritten. */
    method ConvertToCustomer(customer: Customers.Customer?, opportunity: Opportunities.Opportunity?, today: Date)
      modifies this`isConverted, this`convertedAt, this`convertedCustomer, this`convertedOpportunity, this`status
      ensures isConverted && status == Converted && convertedAt == Some(today)
      ensures convertedCustomer == customer && convertedOpportunity == opportunity
      ensures !IsQualified()
    {
      isConverted := true;
      convertedAt := Some(today);
      convertedCustomer := customer;
      convertedOpportunity := opportunity;
      status := Converted;
    }

    /** Converting twice with the same arguments on the same day leaves the lead
        as the first conversion did: the second call writes the same values. */
    method ConvertTwice(customer: Customers.Customer?, opportunity: Opportunities.Opportunity?, today: Date)
      modifies this`isConverted, this`convertedAt, this`convertedCustomer, this`convertedOpportunity, this`status
      ensures isConverted && status == Converted && convertedAt == Some(today)
      ensures convertedCustomer == customer && convertedOpportunity == opportunity
    {
      ConvertToCustomer(customer, opportunity, today);
      ghost var afterFirst := (isConverted, status, convertedAt, convertedCustomer, convertedOpportunity);
      ConvertToCustomer(customer, opportunity, today);
      assert (isConverted, status, convertedAt, convertedCustomer, convertedOpportunity) == afterFirst;
    }
  }
}
