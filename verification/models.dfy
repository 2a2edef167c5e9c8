/**
 * The backlog's one entity: the Game record, its status enum and the
 * validation its data annotations impose before a record may be saved.
 */
module Models {
  import opened Wrappers
  import opened Text

  /** Points in time, as whole seconds; the model never reads a clock. */
  type Timestamp = int

  /** The five statuses, in declaration order. */
  datatype GameStatus = Wishlist | Playing | Completed | OnHold | Dropped

  /** The enum's underlying integer: its position in the declaration. This is
      the order in which sorting by status arranges records. */
  function StatusValue(s: GameStatus): nat {
    match s
    case Wishlist => 0
    case Playing => 1
    case Completed => 2
    case OnHold => 3
    case Dropped => 4
  }

  /** The status with a given underlying value, if there is one. */
  function StatusOfValue(v: int): (r: Option<GameStatus>)
    ensures r.Some? <==> 0 <= v < 5
    ensures r.Some? ==> StatusValue(r.value) == v
  {
    if v == 0 then Some(Wishlist)
    else if v == 1 then Some(Playing)
    else if v == 2 then Some(Completed)
    else if v == 3 then Some(OnHold)
    else if v == 4 then Some(Dropped)
    else None
  }

  /** Every status has a distinct value below five, so the enum has exactly five members. */
  lemma StatusValueRoundTrip(s: GameStatus)
    ensures StatusValue(s) < 5
    ensures StatusOfValue(StatusValue(s)) == Some(s)
  {
  }

  function StatusName(s: GameStatus): string {
    match s
    case Wishlist => "Wishlist"
    case Playing => "Playing"
    case Completed => "Completed"
    case OnHold => "OnHold"
    case Dropped => "Dropped"
  }

  /** `Enum.TryParse<GameStatus>`, restricted to the five member names
      (case-sensitive); any other text yields no status. */
  function ParseStatus(text: string): (r: Option<GameStatus>)
    ensures r.Some? ==> StatusName(r.value) == text
    ensures forall s :: StatusName(s) == text ==> r == Some(s)
  {
    if text == "Wishlist" then Some(Wishlist)
    else if text == "Playing" then Some(Playing)
    else if text == "Completed" then Some(Completed)
    else if text == "OnHold" then Some(OnHold)
    else if text == "Dropped" then Some(Dropped)
    else None
  }

  datatype Game = Game(
    id: int,
    title: string,
    platform: string,
    status: GameStatus,
    rating: Option<int>,
    notes: Option<string>,
    dateAdded: Timestamp,
    dateCompleted: Option<Timestamp>,
    // Enrichment fields copied from the external catalog
    description: Option<string>,
    imageUrl: Option<string>,
    genre: Option<string>,
    releaseDate: Option<Timestamp>,
    externalId: Option<string>)

  /** A freshly constructed record, before any field is bound: `now` stands for
      the `DateTime.Now` the initialiser reads. */
  function NewGame(now: Timestamp): (g: Game)
    ensures g.status == Wishlist && g.dateCompleted.None? && g.platform == ""
    ensures g.dateAdded == now && g.title == ""
    ensures g.rating.None? && g.notes.None? && g.externalId.None?
    ensures !IsValid(g)
  {
    Game(0, "", "", Wishlist, None, None, now, None, None, None, None, None, None)
  }

  const MaxTitleLength := 200
  const MaxPlatformLength := 50
  const MaxNotesLength := 1000
  const MaxDescriptionLength := 500
  const MaxImageUrlLength := 200
  const MaxGenreLength := 100
  const MinRating := 0
  const MaxRating := 10

  /** `[StringLength(max)]` on a nullable string: absence always passes. */
  predicate WithinLength(s: Option<string>, max: nat) {
    s.None? || |s.value| <= max
  }

  /** Every data annotation on the record holds. `Platform` is a non-nullable
      string in a nullable-enabled project, so model validation treats it as
      required even without an attribute: a blank field binds to null and fails. */
  predicate IsValid(g: Game) {
    && !IsNullOrWhiteSpace(Some(g.title))
    && |g.title| <= MaxTitleLength
    && !IsNullOrWhiteSpace(Some(g.platform))
    && |g.platform| <= MaxPlatformLength
    && (g.rating.None? || MinRating <= g.rating.value <= MaxRating)
    && WithinLength(g.notes, MaxNotesLength)
    && WithinLength(g.description, MaxDescriptionLength)
    && WithinLength(g.imageUrl, MaxImageUrlLength)
    && WithinLength(g.genre, MaxGenreLength)
  }

  /** One model-state error per violated annotation. */
  datatype FieldError =
    | TitleRequired
    | TitleTooLong
    | PlatformRequired
    | PlatformTooLong
    | RatingOutOfRange
    | NotesTooLong
    | DescriptionTooLong
    | ImageUrlTooLong
    | GenreTooLong

  /** Whether `g` breaks the annotation that reports `e`. */
  predicate Violates(g: Game, e: FieldError) {
    match e
    case TitleRequired => IsNullOrWhiteSpace(Some(g.title))
    case TitleTooLong => |g.title| > MaxTitleLength
    case PlatformRequired => IsNullOrWhiteSpace(Some(g.platform))
    case PlatformTooLong => |g.platform| > MaxPlatformLength
    case RatingOutOfRange => g.rating.Some? && !(MinRating <= g.rating.value <= MaxRating)
    case NotesTooLong => !WithinLength(g.notes, MaxNotesLength)
    case DescriptionTooLong => !WithinLength(g.description, MaxDescriptionLength)
    case ImageUrlTooLong => !WithinLength(g.imageUrl, MaxImageUrlLength)
    case GenreTooLong => !WithinLength(g.genre, MaxGenreLength)
  }

  const AllFieldErrors: set<FieldError> := {
    TitleRequired, TitleTooLong, PlatformRequired, PlatformTooLong, RatingOutOfRange,
    NotesTooLong, DescriptionTooLong, ImageUrlTooLong, GenreTooLong
  }

  /** The errors model validation reports for a bound record (the model state
      is keyed by field, so the errors form a set). */
  function Validate(g: Game): (errors: set<FieldError>)
    ensures errors == {} <==> IsValid(g)
    ensures TitleRequired in errors <==> IsNullOrWhiteSpace(Some(g.title))
    ensures TitleTooLong in errors <==> |g.title| > MaxTitleLength
    ensures PlatformRequired in errors <==> IsNullOrWhiteSpace(Some(g.platform))
    ensures PlatformTooLong in errors <==> |g.platform| > MaxPlatformLength
    ensures RatingOutOfRange in errors <==> g.rating.Some? && (g.rating.value < MinRating || g.rating.value > MaxRating)
    ensures NotesTooLong in errors <==> g.notes.Some? && |g.notes.value| > MaxNotesLength
    ensures DescriptionTooLong in errors <==> g.description.Some? && |g.description.value| > MaxDescriptionLength
    ensures ImageUrlTooLong in errors <==> g.imageUrl.Some? && |g.imageUrl.value| > MaxImageUrlLength
    ensures GenreTooLong in errors <==> g.genre.Some? && |g.genre.value| > MaxGenreLength
  {
    var errors := set e | e in AllFieldErrors && Violates(g, e);
    AllFieldErrorsComplete();
    ValidIffNoViolation(g);
    assert forall e :: e in errors <==> Violates(g, e);
    errors
  }

  lemma AllFieldErrorsComplete()
    ensures forall e: FieldError :: e in AllFieldErrors
  {
    forall e: FieldError
      ensures e in AllFieldErrors
    {
      match e
      case TitleRequired =>
      case TitleTooLong =>
      case PlatformRequired =>
      case PlatformTooLong =>
      case RatingOutOfRange =>
      case NotesTooLong =>
      case DescriptionTooLong =>
      case ImageUrlTooLong =>
      case GenreTooLong =>
    }
  }

  /** A record is valid exactly when it breaks none of the annotations. */
  lemma ValidIffNoViolation(g: Game)
    ensures IsValid(g) <==> forall e :: !Violates(g, e)
  {
    if forall e :: !Violates(g, e) {
      assert !Violates(g, TitleRequired) && !Violates(g, TitleTooLong);
      assert !Violates(g, PlatformRequired) && !Violates(g, PlatformTooLong);
      assert !Violates(g, RatingOutOfRange) && !Violates(g, NotesTooLong);
      assert !Violates(g, DescriptionTooLong) && !Violates(g, ImageUrlTooLong);
      assert !Violates(g, GenreTooLong);
    }
  }

  /** Validity depends only on the annotated fields: the dates, the status,
      the ids and the release date never make a record invalid. */
  lemma ValidityIgnoresUnannotatedFields(g: Game, id: int, st: GameStatus, added: Timestamp,
                                         completed: Option<Timestamp>, released: Option<Timestamp>,
                                         ext: Option<string>)
    ensures IsValid(g) <==> IsValid(g.(id := id, status := st, dateAdded := added,
                                       dateCompleted := completed, releaseDate := released,
                                       externalId := ext))
  {
  }
}
