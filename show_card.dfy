/**
 * The fields of one result card (`createShowCard`): image source, alternative
 * text, title, rating, genres and summary, computed from a show record of the
 * search response. Each optional property of the record follows JavaScript
 * truthiness: absent (undefined or null) is falsy, and so are "" and 0.
 */
module ShowCard {

  import opened Options
  import opened JsStrings
  import opened Markup

  datatype Image = Image(medium: string)

  datatype Rating = Rating(average: Option<real>)

  /** The `show` record of one search result. */
  datatype Show = Show(
    name: string,
    image: Option<Image>,
    summary: Option<string>,
    genres: Option<seq<string>>,
    rating: Option<Rating>)

  /** The rating shown on a card: "N/A", or the average as `toFixed(1)` prints it. */
  datatype RatingText = NotAvailable | OneDecimal(average: real)

  datatype Card = Card(
    imageSrc: string,
    alt: string,
    title: string,
    rating: RatingText,
    genres: string,
    summary: string)

  const PlaceholderImage: string := "https://via.placeholder.com/210x295/667eea/ffffff?text=No+Image"
  const NoSummary: string := "No summary available"
  const UnknownGenres: string := "Unknown"
  const GenreSeparator: string := ", "

  /** The image URL: the medium-size image when the show has one, else the placeholder. */
  function ImageSource(image: Option<Image>): (src: string)
    ensures image.None? ==> src == PlaceholderImage
    ensures image.Some? ==> src == image.value.medium
  {
    match image
    case Some(img) => img.medium
    case None => PlaceholderImage
  }

  /** The summary text: a truthy summary with its tags stripped, else the fallback.
      A summary made only of tags strips to "" and does not fall back. */
  function SummaryText(summary: Option<string>): (text: string)
    ensures summary.None? || summary == Some("") ==> text == NoSummary
    ensures summary.Some? && summary.value != "" ==>
              text == OutsideTags(summary.value, 0) && TagFree(text)
  {
    if summary.Some? && summary.value != "" then
      StripTagsDeletesExactlyTags(summary.value);
      StripTagsIsTagFree(summary.value);
      StripTags(summary.value)
    else
      NoSummary
  }

  /** The genres text: a non-empty list joined with ", " in order, else "Unknown". */
  function GenresText(genres: Option<seq<string>>): (text: string)
    ensures genres.None? || genres == Some([]) ==> text == UnknownGenres
    ensures genres.Some? && genres.value != [] ==> text == Join(genres.value, GenreSeparator)
    ensures genres.Some? && genres.value != [] ==> genres.value[0] <= text
    ensures genres.Some? && genres.value != [] && (forall g :: g in genres.value ==> ',' !in g) ==>
              Split(text, GenreSeparator) == genres.value
  {
    if genres.Some? && |genres.value| > 0 then
      SplitJoin(genres.value, GenreSeparator);
      Join(genres.value, GenreSeparator)
    else
      UnknownGenres
  }

  /** The average is shown exactly when the rating and its average are truthy:
      present and not zero. */
  function RatingLabel(rating: Option<Rating>): (text: RatingText)
    ensures text.OneDecimal? <==>
              rating.Some? && rating.value.average.Some? && rating.value.average.value != 0.0
    ensures text.OneDecimal? ==> text.average == rating.value.average.value
  {
    if rating.Some? && rating.value.average.Some? && rating.value.average.value != 0.0 then
      OneDecimal(rating.value.average.value)
    else
      NotAvailable
  }

  /** The card for one show; its name is both the title and the image's alternative text. */
  function CreateShowCard(show: Show): (card: Card)
    ensures card.alt == show.name && card.title == show.name
    ensures card.imageSrc == ImageSource(show.image) && card.summary == SummaryText(show.summary)
    ensures card.genres == GenresText(show.genres) && card.rating == RatingLabel(show.rating)
  {
    Card(
      imageSrc := ImageSource(show.image),
      alt := show.name,
      title := show.name,
      rating := RatingLabel(show.rating),
      genres := GenresText(show.genres),
      summary := SummaryText(show.summary))
  }

  /** Complete tags one after another strip to nothing. */
  lemma {:induction false} StripTagsOfTags(tags: seq<string>)
    requires forall t :: t in tags ==> IsTag(t)
    ensures StripTags(Join(tags, "")) == ""
    decreases |tags|
  {
    if |tags| == 1 {
      assert tags[0] in tags;
      assert tags[0] + [] == tags[0];
      StripTagsTagPrefix(tags[0], []);
    } else if |tags| > 1 {
      assert tags[0] in tags;
      var rest := Join(tags[1..], "");
      assert Join(tags, "") == tags[0] + rest;
      StripTagsTagPrefix(tags[0], rest);
      StripTagsOfTags(tags[1..]);
    }
  }

  /** A summary made only of complete tags strips to the empty string, which is
      shown as it is: the fallback applies only to a missing or empty summary. */
  lemma TagOnlySummaryIsEmpty(tags: seq<string>)
    requires |tags| > 0 && forall t :: t in tags ==> IsTag(t)
    ensures SummaryText(Some(Join(tags, ""))) == ""
  {
    assert tags[0] in tags;
    StripTagsOfTags(tags);
  }

  lemma GirlsSummary()
    ensures SummaryText(Some("<p>HBO show</p>")) == "HBO show"
  {
    var r2 := "</p>" + [];
    var r1 := "HBO show" + r2;
    assert "<p>HBO show</p>" == "<p>" + r1;
    calc {
      StripTags("<p>" + r1);
      { StripTagsTagPrefix("<p>", r1); }
      StripTags(r1);
      { StripTagsPlainPrefix("HBO show", r2); }
      "HBO show" + StripTags(r2);
      { StripTagsTagPrefix("</p>", []); }
      "HBO show" + StripTags([]);
      "HBO show";
    }
  }

  lemma GirlsGenres()
    ensures GenresText(Some(["Drama", "Comedy"])) == "Drama, Comedy"
  {
    assert ["Drama", "Comedy"][1..] == ["Comedy"];
  }

  /** The card of the show "Girls": the stripped summary, both genres in order,
      the rating, and the placeholder for its missing image. */
  lemma GirlsCard()
    ensures var show := Show("Girls", None, Some("<p>HBO show</p>"), Some(["Drama", "Comedy"]),
                             Some(Rating(Some(8.0))));
            CreateShowCard(show) ==
              Card(PlaceholderImage, "Girls", "Girls", OneDecimal(8.0), "Drama, Comedy", "HBO show")
  {
    GirlsSummary();
    GirlsGenres();
  }
}
