/** The stored user record, its public view, and the partial update the
    admin endpoint applies to it. */
module Users {
  import opened Wrappers

  /** The two locales a record can hold. */
  predicate IsLocale(s: string) {
    s == "US" || s == "INTL"
  }

  /** A stored record: the dict that `create_user` builds. */
  datatype User = User(
    id: string,
    openaiKey: string,
    locale: string,
    daysLived: Option<string>,
    weekday: Option<string>,
    lastUpdated: Option<string>)

  /** What any response may show of a record: everything but the key. */
  datatype PublicUser = PublicUser(
    id: string,
    locale: string,
    daysLived: Option<string>,
    weekday: Option<string>,
    lastUpdated: Option<string>)

  /** The record `create_user` stores for a new id. */
  function NewUser(id: string, openaiKey: string): (u: User)
    ensures u.id == id && u.openaiKey == openaiKey && u.locale == "US"
    ensures u.daysLived == None && u.weekday == None && u.lastUpdated == None
  {
    User(id, openaiKey, "US", None, None, None)
  }

  /** `public_user`. Every stored record has a locale, so the "US" fallback
      of `user.get("locale", "US")` never applies and the locale is copied. */
  function Public(u: User): (p: PublicUser)
    ensures p.id == u.id && p.locale == u.locale
    ensures p.daysLived == u.daysLived && p.weekday == u.weekday && p.lastUpdated == u.lastUpdated
  {
    PublicUser(u.id, u.locale, u.daysLived, u.weekday, u.lastUpdated)
  }

  /** Two records have the same public view exactly when they differ at
      most in their key: the view determines every field but the key, and
      reveals nothing about the key. */
  lemma PublicHidesOnlyTheKey(u: User, v: User)
    ensures Public(u) == Public(v) <==> u.(openaiKey := v.openaiKey) == v
  {
    if Public(u) == Public(v) {
      assert Public(u).id == Public(v).id;
    }
  }

  /** The body of an admin update: the `openaiKey` field (present with a
      string, or absent) and the `locale` field. */
  datatype UpdateBody = UpdateBody(openaiKey: Option<string>, locale: Option<string>)

  /** The change `admin_update` makes to a record. */
  function Patched(u: User, body: UpdateBody): (v: User)
    // only the key and the locale can change
    ensures v.(openaiKey := u.openaiKey, locale := u.locale) == u
    // a key that is present replaces the old one, whatever it is, even ""
    ensures body.openaiKey.Some? ==> v.openaiKey == body.openaiKey.value
    ensures body.openaiKey.None? ==> v.openaiKey == u.openaiKey
    // the locale changes only to a supplied "US" or "INTL"
    ensures body.locale.Some? && IsLocale(body.locale.value) ==> v.locale == body.locale.value
    ensures v.locale != u.locale ==> body.locale == Some(v.locale) && IsLocale(v.locale)
    ensures IsLocale(u.locale) ==> IsLocale(v.locale)
  {
    var keyed := if body.openaiKey.Some? then u.(openaiKey := body.openaiKey.value) else u;
    if body.locale == Some("US") || body.locale == Some("INTL") then
      keyed.(locale := body.locale.value)
    else
      keyed
  }
}
