/** The product details page: the route id guard that decides whether the
    product is fetched, and the WhatsApp order link built from the loaded
    product. */
module ProductDetails {
  import opened Common
  import opened Text
  import opened Js
  import opened Catalog

  /** The shop's WhatsApp number and the link prefix built from it. */
  const Phone: string := "201002274997"
  const LinkPrefix: string := "https://wa.me/" + Phone + "?text="

  const Heading: string := "\U{0637}\U{0644}\U{0628} \U{0645}\U{0646}\U{062A}\U{062C}"
  const NameLabel: string := "\U{0627}\U{0633}\U{0645}: "
  const PriceLabel: string := "\U{0627}\U{0644}\U{0633}\U{0639}\U{0631}: "
  const ColorLabel: string := "\U{0627}\U{0644}\U{0644}\U{0648}\U{0646}: "
  const SizesLabel: string := "\U{0627}\U{0644}\U{0645}\U{0642}\U{0627}\U{0633}\U{0627}\U{062A}: "
  const ImageLabel: string := "\U{0635}\U{0648}\U{0631}\U{0629}: "

  function ColorLines(p: Product): seq<string> {
    if Truthy(p.color) then [ColorLabel + ToJsString(p.color)] else []
  }

  function SizesLines(p: Product): seq<string> {
    if |p.sizes| > 0 then [SizesLabel + Join(p.sizes, ", ")] else []
  }

  function ImageLines(p: Product): seq<string> {
    if Truthy(p.imageUrl) then [ImageLabel + ToJsString(p.imageUrl)] else []
  }

  /** The `parts` array of `openWhatsApp`: heading, name and price always;
      then the color line when the color is truthy, the sizes line when
      there are sizes, and the image line, last, when the image URL is
      truthy. */
  function Lines(p: Product): (r: seq<string>)
    ensures |r| == 3 + |ColorLines(p)| + |SizesLines(p)| + |ImageLines(p)|
    ensures r[0] == Heading
    ensures r[1] == NameLabel + p.name
    ensures r[2] == PriceLabel + IntToString(p.price) + " EGP"
    ensures Truthy(p.color) ==> r[3] == ColorLabel + ToJsString(p.color)
    ensures |p.sizes| > 0 ==> r[3 + |ColorLines(p)|] == SizesLabel + Join(p.sizes, ", ")
    ensures Truthy(p.imageUrl) ==> r[|r| - 1] == ImageLabel + ToJsString(p.imageUrl)
    ensures !Truthy(p.color) && |p.sizes| == 0 && !Truthy(p.imageUrl) ==> |r| == 3
  {
    [Heading, NameLabel + p.name, PriceLabel + IntToString(p.price) + " EGP"]
      + ColorLines(p) + SizesLines(p) + ImageLines(p)
  }

  /** `parts.join('\n')`. */
  function Message(p: Product): string {
    Join(Lines(p), "\n")
  }

  /** `openWhatsApp`: no product, no link; otherwise the link carries the
      message encoded by `encode` (`encodeURIComponent`). */
  function WhatsAppUrl(product: Option<Product>, encode: string -> string): (r: Option<string>)
    ensures product.None? <==> r.None?
    ensures r.Some? ==> StartsWith(r.value, LinkPrefix)
    ensures r.Some? ==> r.value[|LinkPrefix|..] == encode(Message(product.value))
  {
    match product
    case None => None
    case Some(p) =>
      var url := LinkPrefix + encode(Message(p));
      assert url[..|LinkPrefix|] == LinkPrefix;
      Some(url)
  }

  /** No newline in the product's own text. */
  predicate SingleLineFields(p: Product) {
    && '\n' !in p.name
    && '\n' !in ToJsString(p.color)
    && '\n' !in ToJsString(p.imageUrl)
    && forall i :: 0 <= i < |p.sizes| ==> '\n' !in p.sizes[i]
  }

  lemma NoNewlineInConcat(a: string, b: string)
    requires '\n' !in a && '\n' !in b
    ensures '\n' !in a + b
  {
  }

  lemma {:induction false} NoNewlineInJoin(parts: seq<string>, sep: string)
    requires '\n' !in sep
    requires forall i :: 0 <= i < |parts| ==> '\n' !in parts[i]
    ensures '\n' !in Join(parts, sep)
    decreases |parts|
  {
    if |parts| > 1 {
      NoNewlineInJoin(parts[1..], sep);
      NoNewlineInConcat(parts[0], sep);
      NoNewlineInConcat(parts[0] + sep, Join(parts[1..], sep));
    }
  }

  lemma NoNewlineInPrice(n: int)
    ensures '\n' !in IntToString(n)
  {
    var t := IntToString(n);
    if n < 0 {
      assert t == "-" + NatToString(-n);
      assert forall i :: 1 <= i < |t| ==> IsDigit(t[i]) by {
        forall i | 1 <= i < |t| ensures IsDigit(t[i]) {
          assert t[i] == NatToString(-n)[i - 1];
        }
      }
    }
  }

  /** The recipient can split the message back into its lines, provided
      the product's text holds no newline. */
  lemma MessageSplitsIntoLines(p: Product)
    requires SingleLineFields(p)
    ensures Split(Message(p), '\n') == Lines(p)
  {
    var lines := Lines(p);
    NoNewlineInPrice(p.price);
    NoNewlineInConcat(NameLabel, p.name);
    NoNewlineInConcat(PriceLabel, IntToString(p.price));
    NoNewlineInConcat(PriceLabel + IntToString(p.price), " EGP");
    NoNewlineInConcat(ColorLabel, ToJsString(p.color));
    NoNewlineInJoin(p.sizes, ", ");
    NoNewlineInConcat(SizesLabel, Join(p.sizes, ", "));
    NoNewlineInConcat(ImageLabel, ToJsString(p.imageUrl));
    assert forall i :: 0 <= i < |lines| ==> '\n' !in lines[i];
    SplitJoin(lines, '\n');
  }

  /** Whatever `decodeURIComponent` undoes `encode`, the recipient gets the
      message and its lines back from the link. */
  lemma LinkCarriesLines(p: Product, encode: string -> string, decode: string -> string)
    requires forall m :: decode(encode(m)) == m
    requires SingleLineFields(p)
    ensures WhatsAppUrl(Some(p), encode).Some?
    ensures decode(WhatsAppUrl(Some(p), encode).value[|LinkPrefix|..]) == Message(p)
    ensures Split(decode(WhatsAppUrl(Some(p), encode).value[|LinkPrefix|..]), '\n') == Lines(p)
  {
    MessageSplitsIntoLines(p);
  }

  // ------------------------------------------------------------ route guard

  /** The id `ngOnInit` fetches: `Number(param)`, where a missing parameter
      reads as 0; nothing is fetched for 0 or `NaN`. */
  function RouteId(param: Option<string>): (r: Option<int>)
    ensures param.None? ==> r.None?
    ensures r.Some? ==> r.value != 0 && param.Some? && StringToNumber(param.value) == Some(r.value)
    ensures param.Some? && StringToNumber(param.value).Some? && StringToNumber(param.value).value != 0 ==> r.Some?
  {
    match param
    case None => None
    case Some(s) =>
      match StringToNumber(s)
      case None => None
      case Some(n) => if n == 0 then None else Some(n)
  }

  /** A numeric route segment is fetched under its own number. */
  lemma RouteIdOfNumber(n: int)
    requires n != 0
    ensures RouteId(Some(IntToString(n))) == Some(n)
  {
    NumberOfIntToString(n);
  }

  /** The page state after `ngOnInit`. */
  datatype Details = Details(product: Option<Product>, loading: bool)

  /** `ngOnInit` with the fetch's outcome as an input; it is consulted only
      when the guard lets the fetch happen. */
  function Init(param: Option<string>, fetch: Reply<Product>): (r: Details)
    ensures !r.loading
    ensures RouteId(param).None? ==> r.product.None?
    ensures RouteId(param).Some? && fetch.Ok? ==> r.product == Some(fetch.value)
    ensures fetch.Failed? ==> r.product.None?
  {
    match RouteId(param)
    case None => Details(None, false)
    case Some(_) =>
      match fetch
      case Ok(p) => Details(Some(p), false)
      case Failed(_) => Details(None, false)
  }
}
