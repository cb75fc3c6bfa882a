/**
 * `ClaudeAIService`: meal-plan generation. The child's food preferences are
 * split into liked and disliked food names for the prompt, and the HTTP
 * result of the call is mapped onto success or failure. The prompt text and
 * the transport are not modelled; the reply is a given value.
 */
module MealPlan {
  import opened Wrappers
  import opened ClaudeReply

  /** One stored preference: a food name and the child's rating of it. */
  datatype Preference = Preference(foodName: string, rating: int)

  /** Ratings from this value up are likes. */
  const LikeFrom: int := 4
  /** Ratings up to this value are dislikes. */
  const DislikeUpTo: int := 2

  /** The names rated `LikeFrom` or more, in input order. */
  function Likes(prefs: seq<Preference>): seq<string> {
    if |prefs| == 0 then []
    else (if prefs[0].rating >= LikeFrom then [prefs[0].foodName] else []) + Likes(prefs[1..])
  }

  /** The names rated `DislikeUpTo` or less, in input order. */
  function Dislikes(prefs: seq<Preference>): seq<string> {
    if |prefs| == 0 then []
    else (if prefs[0].rating <= DislikeUpTo then [prefs[0].foodName] else []) + Dislikes(prefs[1..])
  }

  /** The number of preferences with rating exactly 3, which go nowhere. */
  function Neutral(prefs: seq<Preference>): nat {
    if |prefs| == 0 then 0
    else (if DislikeUpTo < prefs[0].rating < LikeFrom then 1 else 0) + Neutral(prefs[1..])
  }

  lemma {:induction false} LikesAppend(prefs: seq<Preference>, p: Preference)
    ensures Likes(prefs + [p]) == Likes(prefs) + (if p.rating >= LikeFrom then [p.foodName] else [])
    ensures Dislikes(prefs + [p]) == Dislikes(prefs) + (if p.rating <= DislikeUpTo then [p.foodName] else [])
    decreases |prefs|
  {
    if |prefs| == 0 {
      assert [] + [p] == [p];
    } else {
      assert (prefs + [p])[1..] == prefs[1..] + [p];
      LikesAppend(prefs[1..], p);
    }
  }

  /**
   * The `foreach` of `generateMealPlan`: one pass that appends each name to
   * the likes or, failing that, to the dislikes.
   */
  method SplitPreferences(prefs: seq<Preference>) returns (likes: seq<string>, dislikes: seq<string>)
    ensures likes == Likes(prefs)
    ensures dislikes == Dislikes(prefs)
  {
    likes, dislikes := [], [];
    var i := 0;
    while i < |prefs|
      invariant 0 <= i <= |prefs|
      invariant likes == Likes(prefs[..i])
      invariant dislikes == Dislikes(prefs[..i])
    {
      var p := prefs[i];
      LikesAppend(prefs[..i], p);
      assert prefs[..i + 1] == prefs[..i] + [p];
      if p.rating >= LikeFrom {
        likes := likes + [p.foodName];
      } else if p.rating <= DislikeUpTo {
        dislikes := dislikes + [p.foodName];
      }
      i := i + 1;
    }
    assert prefs[..|prefs|] == prefs;
  }

  /** Every preference lands in exactly one of likes, dislikes and the
      neutral ones. */
  lemma {:induction false} SplitIsPartition(prefs: seq<Preference>)
    ensures |Likes(prefs)| + |Dislikes(prefs)| + Neutral(prefs) == |prefs|
    decreases |prefs|
  {
    if |prefs| > 0 {
      SplitIsPartition(prefs[1..]);
    }
  }

  /** A name is liked exactly when some preference with that name is rated
      4 or more, and disliked exactly when some is rated 2 or less. */
  lemma {:induction false} SplitMembership(prefs: seq<Preference>, name: string)
    ensures name in Likes(prefs) <==> exists i :: 0 <= i < |prefs| && prefs[i].foodName == name && prefs[i].rating >= LikeFrom
    ensures name in Dislikes(prefs) <==> exists i :: 0 <= i < |prefs| && prefs[i].foodName == name && prefs[i].rating <= DislikeUpTo
    decreases |prefs|
  {
    if |prefs| > 0 {
      SplitMembership(prefs[1..], name);
      forall i | 1 <= i < |prefs| ensures prefs[i] == prefs[1..][i - 1] { }
      forall i | 0 <= i < |prefs| - 1 ensures prefs[1..][i] == prefs[i + 1] { }
    }
  }

  /** When each food appears once, as in the child's preference rows, no
      name is both liked and disliked. */
  lemma LikesDislikesDisjoint(prefs: seq<Preference>, name: string)
    requires forall i, j :: 0 <= i < j < |prefs| ==> prefs[i].foodName != prefs[j].foodName
    ensures !(name in Likes(prefs) && name in Dislikes(prefs))
  {
    SplitMembership(prefs, name);
    if name in Likes(prefs) && name in Dislikes(prefs) {
      var i :| 0 <= i < |prefs| && prefs[i].foodName == name && prefs[i].rating >= LikeFrom;
      var j :| 0 <= j < |prefs| && prefs[j].foodName == name && prefs[j].rating <= DislikeUpTo;
    }
  }

  /** What `callClaudeAPI` returns. */
  datatype ApiResult = ApiSuccess(data: string) | ApiError(error: string)

  const ApiErrorMessage: string := "API Error"
  const UnexpectedMessage: string := "Unexpected response"

  /** `callClaudeAPI` after the exchange: a status other than 200 is an
      error whatever the body; a 200 with `content[0].text` is that text; any
      other 200 is an unexpected response. */
  function InterpretReply(reply: ApiReply): (r: ApiResult)
    ensures r.ApiSuccess? <==> reply.httpCode == HttpOk && reply.content.Some?
    ensures r.ApiSuccess? ==> r.data == reply.content.value.text
    ensures r == ApiError(ApiErrorMessage) <==> reply.httpCode != HttpOk
    ensures r == ApiError(UnexpectedMessage) <==> reply.httpCode == HttpOk && reply.content.None?
  {
    if reply.httpCode != HttpOk then ApiError(ApiErrorMessage)
    else match reply.content
      case Some(t) => ApiSuccess(t.text)
      case None => ApiError(UnexpectedMessage)
  }

  /** A failed status yields the same result whatever the body said. */
  lemma ErrorStatusIgnoresBody(reply1: ApiReply, reply2: ApiReply)
    requires reply1.httpCode == reply2.httpCode != HttpOk
    ensures InterpretReply(reply1) == InterpretReply(reply2) == ApiError(ApiErrorMessage)
  {
  }

  /**
   * `generateMealPlan`: the likes and dislikes that go into the prompt, and
   * the result of the call.
   */
  method GenerateMealPlan(prefs: seq<Preference>, reply: ApiReply)
    returns (likes: seq<string>, dislikes: seq<string>, result: ApiResult)
    ensures likes == Likes(prefs) && dislikes == Dislikes(prefs)
    // What the result means is stated by `InterpretReply`'s own contract.
    ensures result == InterpretReply(reply)
  {
    likes, dislikes := SplitPreferences(prefs);
    result := InterpretReply(reply);
  }
}
