/** Connection-string resolution (`get_engine`) and the schema-pattern default
    shared by the catalog tools. The engine itself is not modelled: a resolved
    connection string stands for it. */
module Connection {
  import opened Wrappers
  import opened Errors

  /** The LIKE pattern that matches every catalog name. */
  const Wildcard: string := "%"

  /** The connection string `get_engine` hands to `create_engine`: the `url`
      argument when one is given, even an empty one, else the `DB_URL`
      environment value `env`; an empty or missing string raises instead. */
  function ResolveUrl(env: Option<string>, url: Option<string>): (r: Result<string, Error>)
    ensures url.Some? ==> (r.Ok? <==> url.value != "")
    ensures url.None? ==> (r.Ok? <==> env.Some? && env.value != "")
    ensures r.Ok? ==> r.value != "" && Some(r.value) in {url, env}
    ensures r.Ok? && url.Some? ==> r.value == url.value
    ensures r.Err? ==> r.error == UrlNotSet
  {
    var chosen := if url.Some? then url else env;
    match chosen
    case Some(s) => if s == "" then Err(UrlNotSet) else Ok(s)
    case None => Err(UrlNotSet)
  }

  /** A given `url` decides the outcome alone: the environment is not consulted. */
  lemma UrlOverridesEnvironment(env1: Option<string>, env2: Option<string>, url: string)
    ensures ResolveUrl(env1, Some(url)) == ResolveUrl(env2, Some(url))
  {
  }

  /** An empty `url` argument raises even when `DB_URL` is set. */
  lemma EmptyUrlRaises(env: Option<string>)
    ensures ResolveUrl(env, Some("")) == Err(UrlNotSet)
  {
  }

  /** The schema pattern of `podbc_get_tables` and `podbc_describe_table`: a
      missing schema matches every catalog. */
  function SchemaPattern(schema: Option<string>): (p: string)
    ensures schema.None? ==> p == Wildcard
    ensures schema.Some? ==> p == schema.value
  {
    match schema
    case None => Wildcard
    case Some(s) => s
  }
}
