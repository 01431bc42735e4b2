/**
 * The user account of the marketplace, reduced to what the modelled core
 * touches: the two names that make up the display name, and the points
 * balance that only the points ledger changes.
 */
module Users {
  import Text

  class User {
    var firstName: string
    var lastName: string
    /** The points balance: a non-negative integer column whose default is 0. */
    var points: nat

    /** A newly registered user starts with no points. */
    constructor (firstName: string, lastName: string)
      ensures this.firstName == firstName && this.lastName == lastName
      ensures points == 0
    {
      this.firstName := firstName;
      this.lastName := lastName;
      points := 0;
    }

    /** `full_name`: the first and last name joined by one space, with the surrounding whitespace stripped. */
    function FullName(): (r: string)
      reads this
      ensures Text.Trimmed(r)
      ensures r == [] <==> Text.AllSpace(firstName) && Text.AllSpace(lastName)
    {
      var joined := firstName + " " + lastName;
      Text.AllSpaceConcat(firstName + " ", lastName);
      Text.AllSpaceConcat(firstName, " ");
      assert Text.AllSpace(" ") by { assert " "[0] == ' '; }
      Text.Strip(joined)
    }
  }

  /**
   * When both names hold something other than whitespace, only the outer
   * whitespace goes: the inner ends of the names and the joining space stay.
   */
  lemma FullNameOfNonBlankNames(u: User)
    requires !Text.AllSpace(u.firstName) && !Text.AllSpace(u.lastName)
    ensures u.FullName() == Text.LStrip(u.firstName) + " " + Text.RStrip(u.lastName)
  {
    var f, l := u.firstName, u.lastName;
    assert f + " " + l == f + (" " + l);
    Text.LStripAppend(f, " " + l);
    assert Text.LStrip(f) + (" " + l) == (Text.LStrip(f) + " ") + l;
    Text.RStripPrepend(Text.LStrip(f) + " ", l);
  }

  /** Two non-empty names without surrounding whitespace are shown as "first last". */
  lemma FullNameOfCleanNames(u: User)
    requires u.firstName != [] && Text.Trimmed(u.firstName)
    requires u.lastName != [] && Text.Trimmed(u.lastName)
    ensures u.FullName() == u.firstName + " " + u.lastName
  {
    FullNameOfNonBlankNames(u);
  }

  /** A user with neither name has the empty display name. */
  lemma FullNameOfEmptyNames(u: User)
    requires u.firstName == [] && u.lastName == []
    ensures u.FullName() == []
  {
  }

  /** Without a last name, the display name is the stripped first name. */
  lemma FullNameWithoutLastName(u: User)
    requires u.lastName == []
    ensures u.FullName() == Text.Strip(u.firstName)
  {
    assert u.firstName + " " + u.lastName == u.firstName + " ";
    Text.StripAppendSpace(u.firstName, " ");
  }

  /** Without a first name, the display name is the stripped last name. */
  lemma FullNameWithoutFirstName(u: User)
    requires u.firstName == []
    ensures u.FullName() == Text.Strip(u.lastName)
  {
    assert u.firstName + " " + u.lastName == " " + u.lastName;
    Text.StripPrependSpace(" ", u.lastName);
  }
}
