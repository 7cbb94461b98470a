/**
 * The user records listed by the Students, Users and Tutors pages and the
 * search box the three pages share: a row stays when its name or its e-mail
 * contains the search term, ignoring letter case.
 */
module People {
  import opened Wrappers
  import opened Text
  import opened Lists

  /** A user row as the pages read it; `name` and `email` may be missing. */
  datatype Person = Person(id: int, name: Option<string>, email: Option<string>)

  /** `user.name?.toLowerCase().includes(t) || user.email?.toLowerCase().includes(t)`. */
  predicate PersonMatches(p: Person, term: string) {
    MatchesCI(p.name, term) || MatchesCI(p.email, term)
  }

  /** The search applied to the whole list, keeping the list order. */
  function SearchPeople(people: seq<Person>, term: string): (found: seq<Person>)
    ensures |found| <= |people|
    ensures forall p :: p in found <==> p in people && PersonMatches(p, term)
  {
    Filter(people, p => PersonMatches(p, term))
  }

  /**
   * With an empty search box every row that has a name or an e-mail is
   * listed; a row with neither never is.
   */
  lemma EmptySearchKeepsNamed(people: seq<Person>, p: Person)
    ensures p in SearchPeople(people, "") <==> p in people && (p.name.Some? || p.email.Some?)
  {
    assert Lower("") == "";
    if p.name.Some? { ContainsEmpty(Lower(p.name.value)); }
    if p.email.Some? { ContainsEmpty(Lower(p.email.value)); }
  }

  /** Typing more characters into the search box never brings a row back. */
  lemma SearchNarrows(people: seq<Person>, term: string, more: string, p: Person)
    ensures p in SearchPeople(people, term + more) ==> p in SearchPeople(people, term)
  {
    LowerAppend(term, more);
    if p.name.Some? { ContainsPrefix(Lower(p.name.value), Lower(term), Lower(more)); }
    if p.email.Some? { ContainsPrefix(Lower(p.email.value), Lower(term), Lower(more)); }
  }

  /** The search does not depend on the letter case of what is typed. */
  lemma SearchIgnoresCase(people: seq<Person>, term: string)
    ensures SearchPeople(people, Upper(term)) == SearchPeople(people, term)
    ensures SearchPeople(people, Lower(term)) == SearchPeople(people, term)
  {
    LowerOfUpper(term);
    LowerSpec(term);
    FilterCongruent(people, p => PersonMatches(p, Upper(term)), p => PersonMatches(p, term));
    FilterCongruent(people, p => PersonMatches(p, Lower(term)), p => PersonMatches(p, term));
  }
}
