/** `getGiftRecommendations` (services/geminiService.ts): the request built
    from the recipient profile, and the normalisation of the model's JSON
    array into gift records with derived ids. The model call itself and
    `JSON.parse` are parameters. */
module GeminiService {
  import opened Wrappers
  import opened Types
  import opened Base64

  // ---------------------------------------------------------------------
  // Prompt
  // ---------------------------------------------------------------------

  /** The template text before the recipient details. */
  const PromptHead: string :=
    "\n    Act as a world-class gift recommendation expert specializing in the Indian market. "
    + "\n    Analyze the following recipient profile and provide 5 highly thoughtful, modern, and relevant gift suggestions."
    + "\n    "
    + "\n    Recipient Details:"

  /** The template text after the recipient details: a blank line, then the guidelines. */
  const PromptTail: string :=
    "\n    Guidelines:"
    + "\n    - ALL budget categories and price references MUST be in Indian Rupees (INR) using the \U{20B9} symbol."
    + "\n    - Focus on items available in India (e.g., local artisanal brands, popular e-commerce platforms like Amazon.in, Tata Cliq, etc.)."
    + "\n    - Avoid generic ideas unless they can be personalized."
    + "\n    - Each recommendation must be comprehensive and culturally relevant to the occasion in an Indian context."
    + "\n  "

  function AgeLine(input: UserInput): string { "    Age: " + input.age }
  function OccasionLine(input: UserInput): string { "    Occasion: " + input.occasion }
  function HobbiesLine(input: UserInput): string { "    Hobbies/Interests: " + input.hobbies }
  function BudgetLine(input: UserInput): string { "    Budget: " + input.budget }

  /** The prompt handed to the model: the template with the four profile
      fields interpolated. It opens with the fixed header and a line break
      and closes with a line break and the fixed guidelines, whatever the
      profile. */
  function Prompt(input: UserInput): (r: string)
    ensures FramedBy(r, PromptHead, PromptTail)
  {
    Joined(PromptHead, AgeLine(input), OccasionLine(input), HobbiesLine(input), BudgetLine(input), PromptTail)
  }

  /** `s` is `head`, a line break, something, a line break and `tail`. */
  predicate FramedBy(s: string, head: string, tail: string) {
    && |s| > |head| + |tail| + 1
    && s[..|head| + 1] == head + "\n"
    && s[|s| - |tail| - 1..] == "\n" + tail
  }

  /** Four lines between a head and a tail, one line break between
      neighbours. */
  function Joined(head: string, l1: string, l2: string, l3: string, l4: string, tail: string): (s: string)
    ensures FramedBy(s, head, tail)
  {
    var nl := "\n";
    var front := head + nl + l1 + nl + l2 + nl + l3 + nl + l4;
    var s := front + nl + tail;
    assert s == front + (nl + tail);
    assert s[..|head| + 1] == front[..|head| + 1] == head + nl;
    head + nl + l1 + nl + l2 + nl + l3 + nl + l4 + nl + tail
  }

  /** `line` sits in `s` at position `p` with a line break right before and
      right after it. */
  predicate OnOwnLine(s: string, line: string, p: nat) {
    && 1 <= p && p + |line| < |s|
    && s[p - 1] == '\n' && s[p..p + |line|] == line && s[p + |line|] == '\n'
  }

  predicate NoLineBreak(s: string) {
    forall i :: 0 <= i < |s| ==> s[i] != '\n'
  }

  lemma OnOwnLineOfJoin(before: string, line: string, after: string)
    ensures OnOwnLine(before + "\n" + line + "\n" + after, line, |before| + 1)
  {
    var s := before + "\n" + line + "\n" + after;
    assert s[|before|] == '\n';
    assert s[|before| + 1..|before| + 1 + |line|] == line;
    assert s[|before| + 1 + |line|] == '\n';
  }

  /** Four lines joined between a head and a tail each sit on their own line. */
  lemma FourLinesBetween(head: string, l1: string, l2: string, l3: string, l4: string, tail: string)
    ensures var s := head + "\n" + l1 + "\n" + l2 + "\n" + l3 + "\n" + l4 + "\n" + tail;
      var p1 := |head| + 1;
      var p2 := p1 + |l1| + 1;
      var p3 := p2 + |l2| + 1;
      var p4 := p3 + |l3| + 1;
      OnOwnLine(s, l1, p1) && OnOwnLine(s, l2, p2) && OnOwnLine(s, l3, p3) && OnOwnLine(s, l4, p4)
  {
    var nl := "\n";
    var s := head + nl + l1 + nl + l2 + nl + l3 + nl + l4 + nl + tail;
    OnOwnLineOfJoin(head, l1, l2 + nl + l3 + nl + l4 + nl + tail);
    assert s == head + nl + l1 + nl + (l2 + nl + l3 + nl + l4 + nl + tail);
    OnOwnLineOfJoin(head + nl + l1, l2, l3 + nl + l4 + nl + tail);
    assert s == (head + nl + l1) + nl + l2 + nl + (l3 + nl + l4 + nl + tail);
    OnOwnLineOfJoin(head + nl + l1 + nl + l2, l3, l4 + nl + tail);
    assert s == (head + nl + l1 + nl + l2) + nl + l3 + nl + (l4 + nl + tail);
    OnOwnLineOfJoin(head + nl + l1 + nl + l2 + nl + l3, l4, tail);
  }

  /** The four profile fields appear verbatim, each on its own line after
      its label (Age, Occasion, Hobbies/Interests, Budget), in that order,
      right after the fixed header. */
  lemma PromptCarriesProfile(input: UserInput)
    ensures var p1 := |PromptHead| + 1;
      var p2 := p1 + |AgeLine(input)| + 1;
      var p3 := p2 + |OccasionLine(input)| + 1;
      var p4 := p3 + |HobbiesLine(input)| + 1;
      && OnOwnLine(Prompt(input), "    Age: " + input.age, p1)
      && OnOwnLine(Prompt(input), "    Occasion: " + input.occasion, p2)
      && OnOwnLine(Prompt(input), "    Hobbies/Interests: " + input.hobbies, p3)
      && OnOwnLine(Prompt(input), "    Budget: " + input.budget, p4)
  {
    FourLinesBetween(PromptHead, AgeLine(input), OccasionLine(input), HobbiesLine(input), BudgetLine(input), PromptTail);
  }

  /** Two profiles without line breaks that give the same prompt are the same profile. */
  lemma PromptDeterminesProfile(u1: UserInput, u2: UserInput)
    requires NoLineBreak(u1.age) && NoLineBreak(u1.occasion) && NoLineBreak(u1.hobbies) && NoLineBreak(u1.budget)
    requires NoLineBreak(u2.age) && NoLineBreak(u2.occasion) && NoLineBreak(u2.hobbies) && NoLineBreak(u2.budget)
    requires Prompt(u1) == Prompt(u2)
    ensures u1 == u2
  {
    ProfileDeterminedBetween(PromptHead, PromptTail, u1, u2);
  }

  /** The same statement for any fixed text around the four lines. */
  lemma ProfileDeterminedBetween(head: string, tail: string, u1: UserInput, u2: UserInput)
    requires NoLineBreak(u1.age) && NoLineBreak(u1.occasion) && NoLineBreak(u1.hobbies) && NoLineBreak(u1.budget)
    requires NoLineBreak(u2.age) && NoLineBreak(u2.occasion) && NoLineBreak(u2.hobbies) && NoLineBreak(u2.budget)
    requires head + "\n" + AgeLine(u1) + "\n" + OccasionLine(u1) + "\n" + HobbiesLine(u1) + "\n" + BudgetLine(u1) + "\n" + tail
          == head + "\n" + AgeLine(u2) + "\n" + OccasionLine(u2) + "\n" + HobbiesLine(u2) + "\n" + BudgetLine(u2) + "\n" + tail
    ensures u1 == u2
  {
    var nl := "\n";
    var d1 := BudgetLine(u1) + nl + tail;
    var c1 := HobbiesLine(u1) + nl + d1;
    var b1 := OccasionLine(u1) + nl + c1;
    var a1 := AgeLine(u1) + nl + b1;
    var d2 := BudgetLine(u2) + nl + tail;
    var c2 := HobbiesLine(u2) + nl + d2;
    var b2 := OccasionLine(u2) + nl + c2;
    var a2 := AgeLine(u2) + nl + b2;
    Reassociate(head, AgeLine(u1), OccasionLine(u1), HobbiesLine(u1), BudgetLine(u1), tail);
    Reassociate(head, AgeLine(u2), OccasionLine(u2), HobbiesLine(u2), BudgetLine(u2), tail);
    assert a1 == ((head + nl) + a1)[|head + nl|..] == ((head + nl) + a2)[|head + nl|..] == a2;
    PeelLine("    Age: ", u1.age, b1, u2.age, b2);
    PeelLine("    Occasion: ", u1.occasion, c1, u2.occasion, c2);
    PeelLine("    Hobbies/Interests: ", u1.hobbies, d1, u2.hobbies, d2);
    PeelLine("    Budget: ", u1.budget, tail, u2.budget, tail);
  }

  lemma Reassociate(head: string, l1: string, l2: string, l3: string, l4: string, tail: string)
    ensures head + "\n" + l1 + "\n" + l2 + "\n" + l3 + "\n" + l4 + "\n" + tail
         == (head + "\n") + (l1 + "\n" + (l2 + "\n" + (l3 + "\n" + (l4 + "\n" + tail))))
  {
  }

  /** A labelled line ends at its first line break, so two strings that
      start with the same label agree on the field after it and on the rest. */
  lemma PeelLine(lbl: string, f1: string, r1: string, f2: string, r2: string)
    requires NoLineBreak(f1) && NoLineBreak(f2)
    requires lbl + f1 + "\n" + r1 == lbl + f2 + "\n" + r2
    ensures f1 == f2 && r1 == r2
  {
    var s1, s2 := lbl + f1 + "\n" + r1, lbl + f2 + "\n" + r2;
    var n := |lbl|;
    assert forall i :: 0 <= i < |f1| ==> s1[n + i] == f1[i];
    assert forall i :: 0 <= i < |f2| ==> s2[n + i] == f2[i];
    assert s1[n + |f1|] == '\n' && s2[n + |f2|] == '\n';
    assert |f1| == |f2|;
    assert f1 == s1[n..n + |f1|] == s2[n..n + |f2|] == f2;
    assert r1 == s1[n + |f1| + 1..] == s2[n + |f2| + 1..] == r2;
  }

  // ---------------------------------------------------------------------
  // Response schema
  // ---------------------------------------------------------------------

  datatype FieldType = StringField | StringArrayField

  datatype SchemaProperty = SchemaProperty(name: string, fieldType: FieldType, description: string)

  /** An array whose items are objects with the given properties. */
  datatype ResponseSchema = ArrayOfObjects(properties: seq<SchemaProperty>, required: seq<string>)

  /** What is sent to the model: the prompt, the response MIME type and the schema. */
  datatype Request = Request(prompt: string, responseMimeType: string, responseSchema: ResponseSchema)

  const GiftSchema: ResponseSchema := ArrayOfObjects(
    [ SchemaProperty("giftName", StringField, "GIFT NAME"),
      SchemaProperty("whyItFits", StringField, "WHY IT FITS THIS PERSON"),
      SchemaProperty("budgetCategory", StringField, "APPROXIMATE BUDGET CATEGORY IN INR (e.g., \U{20B9}2,000 - \U{20B9}3,000)"),
      SchemaProperty("alternatives", StringArrayField, "ALTERNATIVE OPTIONS"),
      SchemaProperty("type", StringField, "IS IT PRACTICAL OR SENTIMENTAL"),
      SchemaProperty("targetAudience", StringField, "WHO WOULD LOVE THIS MOST") ],
    ["giftName", "whyItFits", "budgetCategory", "alternatives", "type", "targetAudience"])

  /** The arguments of `generateContent`: the prompt for this profile, a
      JSON reply, and the schema that requires all six gift fields. */
  function BuildRequest(input: UserInput): (r: Request)
    ensures r.prompt == Prompt(input)
    ensures r.responseMimeType == "application/json"
    ensures r.responseSchema.required == PropertyNames(r.responseSchema.properties)
    ensures |r.responseSchema.required| == 6
  {
    GiftSchemaRequiresEveryField();
    Request(Prompt(input), "application/json", GiftSchema)
  }

  /** The names of a list of schema properties, in order. */
  function PropertyNames(ps: seq<SchemaProperty>): (names: seq<string>)
    ensures |names| == |ps|
    ensures forall i :: 0 <= i < |ps| ==> names[i] == ps[i].name
  {
    seq(|ps|, i requires 0 <= i < |ps| => ps[i].name)
  }

  /** The schema requires exactly its six declared properties, each once and
      in declaration order; `alternatives` is the only array of strings,
      every other field is a string. */
  lemma GiftSchemaRequiresEveryField()
    ensures GiftSchema.required == PropertyNames(GiftSchema.properties)
    ensures |GiftSchema.required| == 6
    ensures forall i, j :: 0 <= i < j < 6 ==> GiftSchema.required[i] != GiftSchema.required[j]
    ensures forall i :: 0 <= i < 6 ==>
      (GiftSchema.properties[i].fieldType == StringArrayField <==> GiftSchema.properties[i].name == "alternatives")
  {
    var names := PropertyNames(GiftSchema.properties);
    assert names == ["giftName", "whyItFits", "budgetCategory", "alternatives", "type", "targetAudience"];
  }

  // ---------------------------------------------------------------------
  // Id derivation
  // ---------------------------------------------------------------------

  /** Number of characters kept from the encoding: `.substring(0, 16)`. */
  const IdLength: nat := 16

  /** `s.substring(0, n)` for `n >= 0`: the first `n` characters, or all of
      `s` when it is shorter. */
  function Prefix(s: string, n: nat): (r: string)
    ensures |r| == if |s| < n then |s| else n
    ensures r == s[..|r|]
  {
    if |s| < n then s else s[..n]
  }

  /** JavaScript's decimal rendering of a non-negative integer index:
      digits only, and no leading zero. */
  function Decimal(n: nat): (s: string)
    ensures |s| >= 1
    ensures forall i :: 0 <= i < |s| ==> '0' <= s[i] <= '9'
    ensures |s| > 1 ==> s[0] != '0'
    decreases n
  {
    if n < 10 then [('0' as int + n) as char]
    else Decimal(n / 10) + [('0' as int + n % 10) as char]
  }

  /** The number a string of decimal digits stands for. */
  function DigitsValue(s: string): nat
    requires forall i :: 0 <= i < |s| ==> '0' <= s[i] <= '9'
    decreases |s|
  {
    if s == [] then 0
    else DigitsValue(s[..|s| - 1]) * 10 + (s[|s| - 1] as int - '0' as int)
  }

  /** Reading the rendering back gives the index. */
  lemma {:induction false} DecimalValue(n: nat)
    ensures DigitsValue(Decimal(n)) == n
    decreases n
  {
    if n >= 10 {
      var d := Decimal(n);
      DecimalValue(n / 10);
      assert d[..|d| - 1] == Decimal(n / 10);
    }
  }

  /** The string that is encoded: `item.giftName + idx`, the name followed
      by the index's digits. */
  function IdKey(giftName: string, idx: nat): (r: string)
    ensures |r| > |giftName|
    ensures r[..|giftName|] == giftName
    ensures forall i :: |giftName| <= i < |r| ==> '0' <= r[i] <= '9'
  {
    giftName + Decimal(idx)
  }

  /** For one gift name the key tells the position apart. */
  lemma IdKeyDeterminesIndex(giftName: string, idx1: nat, idx2: nat)
    requires IdKey(giftName, idx1) == IdKey(giftName, idx2)
    ensures idx1 == idx2
  {
    var k := IdKey(giftName, idx1);
    assert Decimal(idx1) == k[|giftName|..] == Decimal(idx2);
    DecimalValue(idx1);
    DecimalValue(idx2);
  }

  /** `btoa(giftName + idx).substring(0, 16)`; fails where `btoa` throws. */
  function DeriveId(giftName: string, idx: nat): (r: Result<string, BtoaError>)
    ensures r.Success? <==> IsLatin1(giftName)
    ensures r.Success? ==> |r.value| == Min(IdLength, 4 * ((|IdKey(giftName, idx)| + 2) / 3))
    ensures r.Success? && |IdKey(giftName, idx)| >= 10 ==> |r.value| == IdLength
    ensures r.Success? ==> forall i :: 0 <= i < |r.value| ==> IsAlphabetChar(r.value[i]) || r.value[i] == '='
  {
    LatinKey(giftName, idx);
    match Btoa(IdKey(giftName, idx))
    case Success(encoded) => Success(Prefix(encoded, IdLength))
    case Failure(e) => Failure(e)
  }

  function Min(a: int, b: int): int {
    if a < b then a else b
  }

  lemma LatinKey(giftName: string, idx: nat)
    ensures IsLatin1(IdKey(giftName, idx)) <==> IsLatin1(giftName)
  {
    var key, d := IdKey(giftName, idx), Decimal(idx);
    assert forall i :: 0 <= i < |giftName| ==> key[i] == giftName[i];
    assert forall i :: |giftName| <= i < |key| ==> key[i] == d[i - |giftName|];
  }

  lemma Latin1BytesPrefix(s: string, m: nat)
    requires IsLatin1(s) && m <= |s|
    ensures IsLatin1(s[..m])
    ensures Latin1Bytes(s[..m]) == Latin1Bytes(s)[..m]
  {
  }

  /** The id is the full encoding of the key's first twelve characters (of
      the whole key when it is shorter): sixteen encoded characters carry
      exactly twelve Latin-1 characters. */
  lemma IdEncodesFirstTwelve(giftName: string, idx: nat)
    requires IsLatin1(giftName)
    ensures var key := IdKey(giftName, idx);
      var m := Min(12, |key|);
      IsLatin1(key[..m]) && DeriveId(giftName, idx) == Success(Encode(Latin1Bytes(key[..m])))
  {
    var key := IdKey(giftName, idx);
    LatinKey(giftName, idx);
    var b := Latin1Bytes(key);
    var m := Min(12, |key|);
    Latin1BytesPrefix(key, m);
    if |key| >= 12 {
      EncodePrefix(b, 4);
    } else {
      assert key[..m] == key;
      assert |Encode(b)| <= IdLength;
      assert Prefix(Encode(b), IdLength) == Encode(b);
    }
  }

  /** Two ids (of names `btoa` accepts) are equal exactly when their keys
      agree on the first twelve characters (or are equal, when shorter):
      the position is ignored once a name has twelve characters. */
  lemma IdsEqualIffKeyPrefixesEqual(name1: string, idx1: nat, name2: string, idx2: nat)
    requires IsLatin1(name1) && IsLatin1(name2)
    ensures var k1, k2 := IdKey(name1, idx1), IdKey(name2, idx2);
      DeriveId(name1, idx1) == DeriveId(name2, idx2) <==> k1[..Min(12, |k1|)] == k2[..Min(12, |k2|)]
  {
    var k1, k2 := IdKey(name1, idx1), IdKey(name2, idx2);
    var p1, p2 := k1[..Min(12, |k1|)], k2[..Min(12, |k2|)];
    IdEncodesFirstTwelve(name1, idx1);
    IdEncodesFirstTwelve(name2, idx2);
    if DeriveId(name1, idx1) == DeriveId(name2, idx2) {
      EncodeInjective(Latin1Bytes(p1), Latin1Bytes(p2));
      assert forall i :: 0 <= i < |p1| ==> p1[i] as int == p2[i] as int;
    }
  }

  /** A gift name of twelve or more Latin-1 characters gets the same id at
      every position of the list. */
  lemma LongNameIdIgnoresPosition(giftName: string, idx1: nat, idx2: nat)
    requires IsLatin1(giftName) && |giftName| >= 12
    ensures DeriveId(giftName, idx1) == DeriveId(giftName, idx2)
  {
    IdsEqualIffKeyPrefixesEqual(giftName, idx1, giftName, idx2);
    assert IdKey(giftName, idx1)[..12] == giftName[..12] == IdKey(giftName, idx2)[..12];
  }

  // ---------------------------------------------------------------------
  // Normalisation of the parsed response
  // ---------------------------------------------------------------------

  /** One element of the parsed JSON array: the six schema fields. */
  datatype RawGift = RawGift(
    giftName: string,
    whyItFits: string,
    budgetCategory: string,
    alternatives: seq<string>,
    giftType: string,
    targetAudience: string)

  /** `{ ...item, id }`. */
  function WithId(item: RawGift, id: string): GiftRecommendation {
    GiftRecommendation(id, item.giftName, item.whyItFits, item.budgetCategory,
                       item.alternatives, item.giftType, item.targetAudience)
  }

  /** The six content fields of a record, without its id. */
  function ContentOf(g: GiftRecommendation): RawGift {
    RawGift(g.giftName, g.whyItFits, g.budgetCategory, g.alternatives, g.giftType, g.targetAudience)
  }

  /** `items.map((item, idx) => ({ ...item, id: ... }))` over the elements
      from position `start` on: succeeds exactly when `btoa` accepts every
      gift name; element `i` keeps its content and gets the id for its
      name at position `start + i`. */
  function NormalizeFrom(items: seq<RawGift>, start: nat): (r: Result<seq<GiftRecommendation>, BtoaError>)
    ensures r.Success? <==> forall i :: 0 <= i < |items| ==> IsLatin1(items[i].giftName)
    ensures r.Success? ==> |r.value| == |items|
    ensures r.Success? ==> forall i :: 0 <= i < |items| ==>
      ContentOf(r.value[i]) == items[i] && DeriveId(items[i].giftName, start + i) == Success(r.value[i].id)
    decreases |items|
  {
    if items == [] then Success([])
    else
      match DeriveId(items[0].giftName, start)
      case Failure(e) => Failure(e)
      case Success(id) =>
        match NormalizeFrom(items[1..], start + 1)
        case Failure(e) => Failure(e)
        case Success(rest) => Success([WithId(items[0], id)] + rest)
  }

  /** The map over the whole array, positions counted from zero. */
  function Normalize(items: seq<RawGift>): (r: Result<seq<GiftRecommendation>, BtoaError>)
    ensures r.Success? <==> forall i :: 0 <= i < |items| ==> IsLatin1(items[i].giftName)
    ensures r.Success? ==> |r.value| == |items|
    ensures r.Success? ==> forall i :: 0 <= i < |items| ==>
      ContentOf(r.value[i]) == items[i] && DeriveId(items[i].giftName, i) == Success(r.value[i].id)
  {
    NormalizeFrom(items, 0)
  }

  // ---------------------------------------------------------------------
  // The whole call, with every failure collapsed into one error
  // ---------------------------------------------------------------------

  /** What the model client gives back: a transport failure, or a response
      whose `text` may be missing. */
  datatype ModelReply = TransportFailure | Reply(text: Option<string>)

  /** What `JSON.parse` gives for the response text. */
  datatype Parsed = Unparseable | NotAnArray | Array(items: seq<RawGift>)

  /** Why an attempt failed, before the failure is collapsed. */
  datatype Cause = TransportError | NoResponse | MalformedJson | NotAList | InvalidCharacter

  /** `if (!jsonStr)`: the text is missing or empty. */
  predicate IsEmptyText(text: Option<string>) {
    text.None? || text.value == ""
  }

  /** The body of the `try` block, after the model call. */
  function Attempt(reply: ModelReply, parse: string -> Parsed): (r: Result<seq<GiftRecommendation>, Cause>)
    ensures reply.TransportFailure? ==> r == Failure(TransportError)
    ensures reply.Reply? && IsEmptyText(reply.text) ==> r == Failure(NoResponse)
    ensures r.Success? <==>
      && reply.Reply? && !IsEmptyText(reply.text)
      && parse(reply.text.value).Array?
      && forall i :: 0 <= i < |parse(reply.text.value).items| ==> IsLatin1(parse(reply.text.value).items[i].giftName)
    ensures r.Success? ==> var items := parse(reply.text.value).items;
      && |r.value| == |items|
      && forall i :: 0 <= i < |items| ==>
           ContentOf(r.value[i]) == items[i] && DeriveId(items[i].giftName, i) == Success(r.value[i].id)
  {
    match reply
    case TransportFailure => Failure(TransportError)
    case Reply(text) =>
      if IsEmptyText(text) then Failure(NoResponse)
      else
        match parse(text.value)
        case Unparseable => Failure(MalformedJson)
        case NotAnArray => Failure(NotAList)
        case Array(items) =>
          match Normalize(items)
          case Failure(_) => Failure(InvalidCharacter)
          case Success(gifts) => Success(gifts)
  }

  /** The one message every failure surfaces as. */
  const FetchFailedMessage: string := "Failed to fetch recommendations. Please try again."

  /** `getGiftRecommendations(input)`: the request is built from the
      profile and handed to the model client; any failure of the attempt
      is thrown as one `Error` carrying `FetchFailedMessage`. */
  function GetGiftRecommendations(input: UserInput, callModel: Request -> ModelReply, parse: string -> Parsed)
    : (r: Result<seq<GiftRecommendation>, Thrown>)
    ensures r.Failure? ==> r.error == ErrorObject(FetchFailedMessage)
    ensures r.Failure? <==> Attempt(callModel(BuildRequest(input)), parse).Failure?
    ensures r.Success? ==> r.value == Attempt(callModel(BuildRequest(input)), parse).value
  {
    match Attempt(callModel(BuildRequest(input)), parse)
    case Success(gifts) => Success(gifts)
    case Failure(_) => Failure(ErrorObject(FetchFailedMessage))
  }
}
