/** The user record shown in the list and edited in the form. */
module Users {

  datatype Option<T> = None | Some(value: T)

  /** A user as the REST API returns it; `id` is `null` (None) for a draft never saved. */
  datatype User = User(id: Option<int>, firstName: string, lastName: string, email: string)

  /** The empty draft the form starts with and is reset to. */
  const EmptyUser := User(None, "", "", "")

  /** The form's three inputs, by their `name` attribute. */
  datatype Field = FirstName | LastName | Email

  /** The value of the draft field an input is bound to. */
  function FieldOf(u: User, f: Field): string {
    match f
    case FirstName => u.firstName
    case LastName => u.lastName
    case Email => u.email
  }

  /** `{ ...u, [name]: value }`: a copy of `u` with one field replaced. */
  function WithField(u: User, f: Field, value: string): (r: User)
    ensures FieldOf(r, f) == value
    ensures forall g :: g != f ==> FieldOf(r, g) == FieldOf(u, g)
    ensures r.id == u.id
  {
    match f
    case FirstName => u.(firstName := value)
    case LastName => u.(lastName := value)
    case Email => u.(email := value)
  }

  /** Writing back the value a field already holds leaves the user as it was. */
  lemma WithFieldSameValue(u: User, f: Field)
    ensures WithField(u, f, FieldOf(u, f)) == u
  {
    match f
    case FirstName =>
    case LastName =>
    case Email =>
  }

  /** A later write to the same field overrides an earlier one. */
  lemma WithFieldOverwrite(u: User, f: Field, v1: string, v2: string)
    ensures WithField(WithField(u, f, v1), f, v2) == WithField(u, f, v2)
  {
  }
}
