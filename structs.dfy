/** learn_structs: a person record updated through a pointer, and a slice whose
    first element is overwritten in place where the caller can see it. */
module Structs {

  /** contactInfo, embedded by value in person. */
  datatype ContactInfo = ContactInfo(email: string, zipCode: int)

  /** person, held by reference so that a method with a pointer receiver
      changes the caller's value. */
  class Person {
    var firstName: string
    var lastName: string
    var contactInfo: ContactInfo

    constructor (firstName: string, lastName: string, contactInfo: ContactInfo)
      ensures this.firstName == firstName && this.lastName == lastName
      ensures this.contactInfo == contactInfo
    {
      this.firstName := firstName;
      this.lastName := lastName;
      this.contactInfo := contactInfo;
    }

    /** updateFirstName: writes firstName through the pointer; nothing else changes. */
    method UpdateFirstName(newFirstName: string)
      modifies this`firstName
      ensures firstName == newFirstName
      ensures lastName == old(lastName) && contactInfo == old(contactInfo)
    {
      firstName := newFirstName;
    }
  }

  /** updateSlice: overwrites element 0 in the caller's backing array; indexing
      an empty slice panics, so the slice must have an element. */
  method UpdateSlice(s: array<string>)
    requires s.Length > 0
    modifies s
    ensures s[0] == "Good morning"
    ensures forall k :: 1 <= k < s.Length ==> s[k] == old(s[k])
  {
    s[0] := "Good morning";
  }

  /** The body of main: Carmen Canvas renamed to Carlos through the pointer, and
      the five-word slice after updateSlice, as the caller then sees them. */
  method Demo() returns (carmen: (string, string, ContactInfo), greeting: seq<string>)
    ensures carmen == ("Carlos", "Canvas", ContactInfo("canvas.1@osu.edu", 43210))
    ensures greeting == ["Good morning", "There", "How", "Are", "You"]
  {
    var p := new Person("Carmen", "Canvas", ContactInfo("canvas.1@osu.edu", 43210));
    p.UpdateFirstName("Carlos");
    carmen := (p.firstName, p.lastName, p.contactInfo);

    var mySlice := new string[5];
    mySlice[0], mySlice[1], mySlice[2], mySlice[3], mySlice[4] := "Hi", "There", "How", "Are", "You";
    UpdateSlice(mySlice);
    greeting := mySlice[..];
  }
}
