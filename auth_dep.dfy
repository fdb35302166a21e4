/** Resolving the current user from the `Authorization` header. */
module AuthDep {
  import opened Wrappers
  import opened Models
  import opened Text

  /** Python's `str.partition(" ")`: the text before the first space, the
      space itself, and the rest; without a space, the whole text and two
      empty parts. */
  function Partition(s: string): (r: (string, string, string))
    ensures r.0 + r.1 + r.2 == s
    ensures ' ' !in r.0
    ensures r.1 == "" || r.1 == " "
    ensures r.1 == "" ==> r.2 == ""
    decreases |s|
  {
    if s == [] then ("", "", "")
    else if s[0] == ' ' then ("", " ", s[1..])
    else
      var rest := Partition(s[1..]);
      assert s == [s[0]] + s[1..];
      ([s[0]] + rest.0, rest.1, rest.2)
  }

  /** The split happens at the first space: everything after it, further
      spaces included, is the second part. */
  lemma {:induction false} PartitionAtFirstSpace(head: string, tail: string)
    requires ' ' !in head
    ensures Partition(head + " " + tail) == (head, " ", tail)
    decreases |head|
  {
    var s := head + " " + tail;
    if head == [] {
      assert s == [' '] + tail;
    } else {
      assert s[0] == head[0];
      assert s[1..] == head[1..] + " " + tail;
      PartitionAtFirstSpace(head[1..], tail);
      assert [head[0]] + head[1..] == head;
    }
  }

  /** Python truthiness of the decoded payload: None and the empty dict are false. */
  predicate PayloadTruthy<P>(payload: Option<map<string, P>>) {
    payload.Some? && |payload.value| > 0
  }

  /** `get_current_user`. The scheme must be `bearer` in any letter case and
      the token non-empty; the payload `decode` returns (None for a bad or
      expired token) must be non-empty. */
  function GetCurrentUser<P>(authorization: string, decode: string -> Option<map<string, P>>)
    : (r: Result<map<string, P>>)
    ensures var (scheme, _, token) := Partition(authorization);
      Lower(scheme) != "bearer" || token == "" ==> r == Err(Http(401, "Invalid authorization schema"))
    ensures var (scheme, _, token) := Partition(authorization);
      Lower(scheme) == "bearer" && token != "" && !PayloadTruthy(decode(token)) ==>
      r == Err(Http(401, "Invalid or expired token"))
    ensures r.Ok? <==> var (scheme, _, token) := Partition(authorization);
      Lower(scheme) == "bearer" && token != "" && PayloadTruthy(decode(token))
    ensures r.Ok? ==> r.value == decode(Partition(authorization).2).value && |r.value| > 0
  {
    var (scheme, _, token) := Partition(authorization);
    if Lower(scheme) != "bearer" || token == "" then Err(Http(401, "Invalid authorization schema"))
    else
      var payload := decode(token);
      if !PayloadTruthy(payload) then Err(Http(401, "Invalid or expired token"))
      else Ok(payload.value)
  }

  /** A well-formed header in any letter case reaches the decoder with the
      token intact, and its payload is the user. */
  lemma BearerAccepted<P>(scheme: string, token: string, decode: string -> Option<map<string, P>>)
    requires scheme == "Bearer" || scheme == "bearer" || scheme == "BEARER"
    requires token != "" && PayloadTruthy(decode(token))
    ensures GetCurrentUser(scheme + " " + token, decode) == Ok(decode(token).value)
  {
    PartitionAtFirstSpace(scheme, token);
    assert Lower(scheme) == "bearer";
  }

  /** A header without a space carries no token and is refused before decoding. */
  lemma NoSpaceRefused<P>(authorization: string, decode: string -> Option<map<string, P>>)
    requires ' ' !in authorization
    ensures GetCurrentUser(authorization, decode) == Err(Http(401, "Invalid authorization schema"))
  {
  }
}
