/** The origin check of the API's CORS policy (appointment-scheduler/server.js, `corsOptions.origin`). */
module Cors {
  import opened Options
  import opened Text

  /** One entry of the allow-list: an exact origin, or a pattern anchored at the end
      (`/\.vercel\.app$/`). `Exact(None)` is an unset `FRONTEND_URL`: not a string,
      not a pattern, so it admits nothing. */
  datatype AllowEntry = Exact(origin: Option<string>) | EndsIn(suffix: string)

  const LocalDev: string := "http://localhost:3000"
  const LocalDevAlt: string := "http://localhost:3001"
  const PreviewSuffix: string := ".vercel.app"

  function AllowList(frontendUrl: Option<string>): seq<AllowEntry> {
    [Exact(frontendUrl), Exact(Some(LocalDev)), Exact(Some(LocalDevAlt)), EndsIn(PreviewSuffix)]
  }

  predicate Admits(e: AllowEntry, origin: string) {
    match e
    case Exact(o) => o == Some(origin)
    case EndsIn(suffix) => EndsWith(origin, suffix)
  }

  /** `allowedOrigins.some(...)`. */
  function SomeAdmits(entries: seq<AllowEntry>, origin: string): (b: bool)
    ensures b <==> exists k :: 0 <= k < |entries| && Admits(entries[k], origin)
  {
    if entries == [] then false
    else Admits(entries[0], origin) || SomeAdmits(entries[1..], origin)
  }

  /** The origin callback: a request without an Origin (or with an empty one) is let
      through; otherwise the origin must be on the allow-list. */
  function OriginAllowed(origin: Option<string>, frontendUrl: Option<string>): (allowed: bool)
    ensures allowed <==>
      || origin.None? || origin == Some("")
      || origin == frontendUrl
      || origin == Some(LocalDev) || origin == Some(LocalDevAlt)
      || EndsWith(origin.value, PreviewSuffix)
  {
    if origin.None? || origin.value == "" then true
    else
      var list := AllowList(frontendUrl);
      assert Admits(list[0], origin.value) <==> origin == frontendUrl;
      assert Admits(list[1], origin.value) <==> origin == Some(LocalDev);
      assert Admits(list[2], origin.value) <==> origin == Some(LocalDevAlt);
      assert Admits(list[3], origin.value) <==> EndsWith(origin.value, PreviewSuffix);
      assert SomeAdmits(list, origin.value) <==>
        Admits(list[0], origin.value) || Admits(list[1], origin.value)
        || Admits(list[2], origin.value) || Admits(list[3], origin.value);
      SomeAdmits(list, origin.value)
  }
}
