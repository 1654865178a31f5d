/**
 * The web server's `/get_wish` handler (`get_wish` in app.py): it reads the
 * name from the request's JSON object, loads the wishes, picks one at
 * random and answers with "<name>，<wish>".
 */
module Greeting {
  import opened Wrappers
  import opened Wishes

  /** The name used when the request does not carry one. */
  const DefaultName: string := "亲爱的朋友"

  /** The full-width comma (U+FF0C) between the name and the wish. */
  const Separator: string := "，"

  /**
   * The request's JSON object, each member's value already formatted as
   * the f-string would format it (a JSON string as itself).
   */
  type JsonObject = map<string, string>

  /** Why the handler gives no wish: the body was not a JSON object. */
  datatype RequestError = NotAJsonObject

  /** `data.get('name', '亲爱的朋友')` */
  function NameOf(data: JsonObject): string
  {
    if "name" in data then data["name"] else DefaultName
  }

  /** `f"{name}，{wish}"` */
  function Personalize(name: string, wish: string): string
  {
    name + Separator + wish
  }

  /**
   * `get_wish`. `body` is what `request.get_json()` yields (`None` when it is
   * not a JSON object, and the request then fails), `file` what reading
   * `wishes.txt` gives, and `pick` the index `random.choice` draws, always
   * below the length of the list it draws from.
   */
  function GetWish(body: Option<JsonObject>, file: WishFile, pick: nat): (r: Result<string, RequestError>)
    requires pick < |LoadWebWishes(file)|
    ensures r.Err? <==> body.None?
    ensures r.Ok? ==> exists w :: w in LoadWebWishes(file) && r.value == Personalize(NameOf(body.value), w)
  {
    match body
    case None => Err(NotAJsonObject)
    case Some(data) =>
      var wishes := LoadWebWishes(file);
      assert wishes[pick] in wishes;
      Ok(Personalize(NameOf(data), wishes[pick]))
  }

  /**
   * The random pick always has a candidate, and every loaded wish can be
   * the one that is sent.
   */
  lemma EveryWishReachable(data: JsonObject, file: WishFile, w: string)
    requires w in LoadWebWishes(file)
    ensures LoadWebWishes(file) != []
    ensures exists pick ::
              && 0 <= pick < |LoadWebWishes(file)|
              && GetWish(Some(data), file, pick) == Ok(Personalize(NameOf(data), w))
  {
    var wishes := LoadWebWishes(file);
    var pick :| 0 <= pick < |wishes| && wishes[pick] == w;
    assert GetWish(Some(data), file, pick) == Ok(Personalize(NameOf(data), w));
  }

  /**
   * The greeting splits back into its parts: the name, the full-width comma
   * and one of the loaded wishes; without a "name" member the name is
   * "亲爱的朋友".
   */
  lemma GreetingParts(data: JsonObject, file: WishFile, pick: nat)
    requires pick < |LoadWebWishes(file)|
    ensures var g, name := GetWish(Some(data), file, pick).value, NameOf(data);
      && |name| + 1 <= |g|
      && g[..|name|] == name
      && g[|name|] == '，'
      && g[|name| + 1..] in LoadWebWishes(file)
    ensures "name" !in data ==> GetWish(Some(data), file, pick).value[..|DefaultName| + 1] == "亲爱的朋友，"
  {
    var g, name := GetWish(Some(data), file, pick).value, NameOf(data);
    var w :| w in LoadWebWishes(file) && g == name + Separator + w;
    assert g[|name| + 1..] == w;
  }
}
