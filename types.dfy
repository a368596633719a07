/** The records of the journaling app (types.ts) and the shape of a reply
    from the remote text generator. */
module Types {

  /** An optional value: `undefined`/`null` in the source. */
  datatype Option<T> = None | Some(value: T)

  /** The closed set of crashout categories. */
  datatype Category =
    | Academics
    | LoveLife
    | AnnoyingPeople
    | Family
    | StressOverthinking
    | SillyRandom
    | Other

  /** The label under which a category is shown, stored and counted. No
      label is empty, so a label is truthy wherever the source falls back on
      a default with `||`. */
  function Label(c: Category): (r: string)
    ensures r != ""
  {
    match c
    case Academics => "Academics"
    case LoveLife => "Love Life"
    case AnnoyingPeople => "Annoying People"
    case Family => "Family"
    case StressOverthinking => "Stress / Overthinking"
    case SillyRandom => "Silly / Random"
    case Other => "Other"
  }

  /** The category whose label is `s`, if there is one. */
  function CategoryOfLabel(s: string): (c: Option<Category>)
    ensures c.Some? ==> Label(c.value) == s
    ensures c.None? ==> forall d: Category :: Label(d) != s
  {
    if s == "Academics" then Some(Academics)
    else if s == "Love Life" then Some(LoveLife)
    else if s == "Annoying People" then Some(AnnoyingPeople)
    else if s == "Family" then Some(Family)
    else if s == "Stress / Overthinking" then Some(StressOverthinking)
    else if s == "Silly / Random" then Some(SillyRandom)
    else if s == "Other" then Some(Other)
    else None
  }

  /** Labels identify categories: reading a label back gives the category. */
  lemma LabelRoundTrip(c: Category)
    ensures CategoryOfLabel(Label(c)) == Some(c)
  {
  }

  /** The signed-in user; the password is not part of it. */
  datatype User = User(name: string, username: string)

  /** A contact; `lastMessageReceived` is overwritten by each share. */
  datatype Friend = Friend(
    id: string,
    name: string,
    username: string,
    status: string,
    lastMessageReceived: Option<string>)

  /** One journaled moment. `dramaLevel` is documented to lie in 1..10. */
  datatype Crashout = Crashout(
    id: string,
    timestamp: int,
    description: string,
    category: Category,
    dramaLevel: int,
    funnyQuote: string,
    userCaption: string)

  /** The recap shown by the "wrapped" view. */
  datatype WrappedStats = WrappedStats(
    totalCrashouts: nat,
    topCategory: Category,
    secondTopCategory: Category,
    mostActiveDay: string,
    chaosScore: int,
    headline: string,
    statLines: seq<string>,
    closingLine: string)

  /** What one request to the remote text generator ends in: the call itself
      rejects, its text is not JSON (or is `null`, whose fields cannot be
      read), or it parses to a payload. */
  datatype Reply<T> = CallFailed | Unparsable | Parsed(payload: T)
}
