/** `tiktok_user_exists`: the profile lookup and how its HTTP status is read. */
module Verifier {
  import opened Wrappers

  const ProfilePrefix := "https://www.tiktok.com/"

  /** The three outcomes of a lookup: the account exists, it does not, or
      the status was neither 200 nor 404 (the source raises an exception). */
  datatype Existence = Exists | NotExists | Unexpected(code: int)

  /** 200 means the account exists, 404 that it does not; every other
      status is an error and never reads as "does not exist". */
  function ClassifyStatus(code: int): (e: Existence)
    ensures e == Exists <==> code == 200
    ensures e == NotExists <==> code == 404
    ensures e.Unexpected? <==> code != 200 && code != 404
    ensures e.Unexpected? ==> e.code == code
  {
    if code == 200 then Exists
    else if code == 404 then NotExists
    else Unexpected(code)
  }

  /** The URL requested for a username (which carries its own `@`). */
  function ProfileUrl(username: string): (url: string)
    ensures |url| == |ProfilePrefix| + |username|
    ensures url[..|ProfilePrefix|] == ProfilePrefix && url[|ProfilePrefix|..] == username
  {
    ProfilePrefix + username
  }

  /** How a possibly-`None` value is rendered by an f-string. */
  function Interpolate(value: Option<string>): (s: string)
    ensures value.Some? ==> s == value.value
    ensures value.None? ==> s == "None" && s[0] != '@'
  {
    match value
    case Some(s) => s
    case None => "None"
  }

  /** The lookup itself; `status` stands for the HTTP GET and gives the
      status code answered for a URL. */
  function UserExists(status: string -> int, username: string): (e: Existence)
    ensures e == Exists <==> status(ProfilePrefix + username) == 200
    ensures e == NotExists <==> status(ProfilePrefix + username) == 404
    ensures e.Unexpected? ==> e.code == status(ProfilePrefix + username)
  {
    ClassifyStatus(status(ProfileUrl(username)))
  }
}
