/** Choosing the kind of fake value from a column name (assign2.py:20-28, 33-40). */
module Domains {
  import opened Strings

  /** The value domains of the generators: the three Faker providers named in the
      source, Faker's word, and the integers of `np.random.randint(10, 100)`. */
  datatype Domain = PersonName | City | EmailAddress | Word | SmallInt

  /** The rule of synthetic_value: the lower-cased name is searched for "name",
      then "city", then "email"; the first hit decides, and a word is the fallback. */
  function ValueDomain(column: string): (d: Domain)
    ensures d != SmallInt
  {
    var c := Lower(column);
    if Contains(c, "name") then PersonName
    else if Contains(c, "city") then City
    else if Contains(c, "email") then EmailAddress
    else Word
  }

  /** The rule of generate_synthetic_dataset: the same tests, with an integer fallback. */
  function ColumnDomain(column: string): (d: Domain)
    ensures d != Word
  {
    var c := Lower(column);
    if Contains(c, "name") then PersonName
    else if Contains(c, "city") then City
    else if Contains(c, "email") then EmailAddress
    else SmallInt
  }

  /** `synthetic_value(col)`: the value the generator of the name's domain yields
      for one random draw. */
  function SyntheticValue(column: string, faker: (Domain, nat) -> string, draw: nat): (v: string)
    ensures exists n: nat :: v == faker(ValueDomain(column), n)
  {
    faker(ValueDomain(column), draw)
  }

  /** `word` occurs somewhere in the lower-cased column name. */
  ghost predicate Mentions(column: string, word: string)
  {
    exists i :: OccursAt(Lower(column), word, i)
  }

  /** The synthetic_value rule stated by occurrences: each domain is chosen exactly
      when its word occurs and no earlier word does. */
  lemma ValueDomainRule(column: string)
    ensures ValueDomain(column) == PersonName <==> Mentions(column, "name")
    ensures ValueDomain(column) == City <==> !Mentions(column, "name") && Mentions(column, "city")
    ensures ValueDomain(column) == EmailAddress <==>
      !Mentions(column, "name") && !Mentions(column, "city") && Mentions(column, "email")
    ensures ValueDomain(column) == Word <==>
      !Mentions(column, "name") && !Mentions(column, "city") && !Mentions(column, "email")
  {
    var c := Lower(column);
    ContainsIff(c, "name");
    ContainsIff(c, "city");
    ContainsIff(c, "email");
  }

  /** The two rules agree except in the fallback: a word for one value, an integer
      column for a whole data set. */
  lemma DomainRulesAgree(column: string)
    ensures ValueDomain(column) != SmallInt && ColumnDomain(column) != Word
    ensures ColumnDomain(column) == if ValueDomain(column) == Word then SmallInt else ValueDomain(column)
  {
  }

  /** The rules ignore letter case. */
  lemma DomainIgnoresCase(column: string)
    ensures ValueDomain(Lower(column)) == ValueDomain(column)
    ensures ColumnDomain(Lower(column)) == ColumnDomain(column)
  {
    LowerIdempotent(column);
  }

  /** First match wins: "CityName" names a person although it also mentions a city. */
  lemma FirstMatchWins()
    ensures ValueDomain("CityName") == PersonName && ColumnDomain("CityName") == PersonName
  {
    var a := Lower("CityName");
    assert a[4..8] == "name";
    assert OccursAt(a, "name", 4);
    ValueDomainRule("CityName");
  }

  /** A column "Email_Addr" is filled with email addresses. */
  lemma EmailColumn()
    ensures ValueDomain("Email_Addr") == EmailAddress && ColumnDomain("Email_Addr") == EmailAddress
  {
    var b := Lower("Email_Addr");
    assert b[0..5] == "email";
    assert OccursAt(b, "email", 0);
    NotMentioned("Email_Addr", "name");
    NotMentioned("Email_Addr", "city");
    ValueDomainRule("Email_Addr");
  }

  /** A name that mentions none of the words falls back: a word, or an integer column. */
  lemma FallbackColumn()
    ensures ValueDomain("Salary") == Word && ColumnDomain("Salary") == SmallInt
  {
    NotMentioned("Salary", "name");
    NotMentioned("Salary", "city");
    NotMentioned("Salary", "email");
    ValueDomainRule("Salary");
  }

  lemma NotMentioned(column: string, word: string)
    requires |word| > 0
    requires forall i :: 0 <= i < |column| ==> LowerChar(column[i]) != word[0]
    ensures !Mentions(column, word)
  {
    var c := Lower(column);
    forall i ensures !OccursAt(c, word, i) {
      if 0 <= i <= |c| - |word| {
        assert c[i..i + |word|][0] == c[i];
      }
    }
  }
}
