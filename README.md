# Blog platform: refresh-token redemption, post updates, user-id injection

This project models three pieces of a multi-service blog platform and proves properties about them in Dafny 4.11.

- **Refresh-token redemption** (`Authentication`, `authentication.dfy`). The JWT refresh strategy takes a refresh-token payload whose signature has already been verified. It redeems the payload against the live refresh sessions:
  - a token id that is not live fails with `TokenNotExists`;
  - a live one has its session deleted first, and then the user named by the token's subject is loaded.

  The refresh-token service is a class holding a set of live token ids. The authentication service is a class holding a map from user id to user. One redemption, as a pure value, is `Redeem`. A sequence of redemptions is `RedeemAll`. The lemmas about `RedeemAll` show two things: a token id gets past the liveness check at most once, and it gets past it the first time it is presented while live.
- **Post service** (`BlogPost`, `blog_post.dfy`). A post's content is a map from field name to value; a missing field is `undefined`. An update maps each field to a value or to `undefined`. `Update` copies every defined field that differs from the stored value. It writes the repository once if something changed and not at all otherwise. It returns the merged post either way. Values are tagged as `null`, strings, integral numbers, booleans or object references; `undefined` is a missing entry. A field an update sets to `null` is defined, so it is copied. For such values, datatype equality agrees with JavaScript's `===`: primitives compare by type and content, objects by address. The repository is a class with the stored posts and a log of its `update` calls. `Create`, `FindOne` and `Remove` go through that repository too.
- **User-id injection** (`Interceptors`, `interceptors.dfy`). The interceptor overwrites the user-id header of the request in place. It writes the authenticated user's subject, or `undefined` when there is no user. Then it hands control to the next handler exactly once and returns that handler's stream.

`Wrappers` (`wrappers.dfy`) holds the `Option`, `Result` and `Outcome` types.

The source of three services is not shown: the refresh-token service, the authentication service and the post repository. Each is modelled abstractly, by a class with the behaviour below:
- `isExists` is membership in the set of live sessions;
- `deleteRefreshSession` removes one id and does nothing if the id is absent;
- `getUser` fails with `UserNotFound` for an unknown id;
- `findById`, for an unknown id, either resolves to `null` or rejects with NotFound; the model leaves the choice open;
- `deleteById` fails whenever no post has that id, may also fail for reasons of its own, and deletes nothing when it fails;
- `save` assigns an id that no stored post has.

## Model

| member | source | states |
|---|---|---|
| `Authentication.Redeem` | project/libs/account/authentication/src/strategies/jwt-refresh.strategy.ts:25-32 | A redemption fails with TokenNotExists exactly when the token id is not live, and then the live set is unchanged. Afterwards the token id is not live, and every other live session stays live. A redemption past the check returns the lookup of the token's subject. |
| `Authentication.FindUser` | project/libs/account/authentication/src/strategies/jwt-refresh.strategy.ts:31 | The lookup succeeds exactly when the subject is a known user, and then returns that user; otherwise it fails with UserNotFound for that id. |
| `Authentication.RedeemAll` | project/libs/account/authentication/src/strategies/jwt-refresh.strategy.ts:26-30 | After any sequence of redemptions, exactly the presented token ids have left the live set: every live id that was not presented stays live, and no new session appears. There is one result per payload. |
| `Authentication.DeadTokenStaysDead` | project/libs/account/authentication/src/strategies/jwt-refresh.strategy.ts:26-28 | A token id that is not live fails with TokenNotExists at every later presentation. |
| `Authentication.NoReplay` | project/libs/account/authentication/src/strategies/jwt-refresh.strategy.ts:26-30 | Once a presentation of a token id has passed the liveness check, every later presentation of it fails with TokenNotExists. |
| `Authentication.FirstRedemptionPasses` | project/libs/account/authentication/src/strategies/jwt-refresh.strategy.ts:26-31 | The first presentation of a live token id passes the check and returns its subject's user, whatever was redeemed before it. |
| `Authentication.RefreshTokenService.IsExists` | project/libs/account/authentication/src/strategies/jwt-refresh.strategy.ts:26 | The answer is true exactly when the token id is live. |
| `Authentication.RefreshTokenService.DeleteRefreshSession` | project/libs/account/authentication/src/strategies/jwt-refresh.strategy.ts:30 | Exactly that token id leaves the live set. |
| `Authentication.AuthenticationService.GetUser` | project/libs/account/authentication/src/strategies/jwt-refresh.strategy.ts:31 | Returns the stored user for the id, or UserNotFound. |
| `Authentication.JwtRefreshStrategy.Validate` | project/libs/account/authentication/src/strategies/jwt-refresh.strategy.ts:25-32 | The new live set and the result are exactly those of `Redeem` on the old live set. The check comes first, the deletion second and the user lookup last. |
| `Authentication.JwtRefreshStrategy.ValidateTwice` | project/libs/account/authentication/src/strategies/jwt-refresh.strategy.ts:26-30 | Presenting one payload twice: the second call always fails with TokenNotExists, and only that token id has left the live set. |
| `BlogPost.Merge` | project/libs/blog/blog-post/src/post/post.service.ts:34-39 | Every defined field of the update holds the update's value. Every stored field the update leaves undefined keeps its stored value. No other field appears. |
| `BlogPost.NoDifferenceIffNoChange` | project/libs/blog/blog-post/src/post/post.service.ts:34-43 | Merging leaves the post unchanged exactly when no defined field differs from the stored value. |
| `BlogPost.MergeIdempotent` | project/libs/blog/blog-post/src/post/post.service.ts:34-43 | Applying the same update to its own result finds no difference and changes nothing. |
| `BlogPost.DiffersStep` | project/libs/blog/blog-post/src/post/post.service.ts:35-38 | Handling one more entry sets the change flag exactly when that entry is defined and differs, or when an earlier entry did. |
| `BlogPost.MergeUpdate` | project/libs/blog/blog-post/src/post/post.service.ts:32-39 | The loop returns the merge of the stored fields with the update. Its change flag is true exactly when some defined field differed. |
| `BlogPost.PostRepository.FindById` | project/libs/blog/blog-post/src/post/post.service.ts:30 | Returns the post stored under the id. For an id with no post, it resolves to null (None) or rejects with NotFound. |
| `BlogPost.PostRepository.Save` | project/libs/blog/blog-post/src/post/post.service.ts:17 | Stores the fields under an id that no stored post had, leaves every other post as it was, and logs no update. |
| `BlogPost.PostService.Create` | project/libs/blog/blog-post/src/post/post.service.ts:15-19 | The new fields are saved under a fresh id. The returned entity is that same saved post, and no update is logged. |
| `BlogPost.PostService.FindOne` | project/libs/blog/blog-post/src/post/post.service.ts:25-27 | Returns the stored post for the id. For a missing id, it resolves to null (None) or rejects with NotFound, as the lookup does. |
| `BlogPost.PostRepository.Update` | project/libs/blog/blog-post/src/post/post.service.ts:45 | The post's fields are stored under its id, and exactly that one entity is appended to the write log. |
| `BlogPost.PostService.Update` | project/libs/blog/blog-post/src/post/post.service.ts:29-48 | For a stored post, the merged post is returned. When no field differs, nothing is written. When a field differs, exactly one repository update is made, with the merged post. For a missing post, the call either rejects with NotFound (a rejecting lookup) or follows a null lookup. After a null lookup, a defined field makes property access on null fail, and with no defined field null is returned. No missing-post case writes. |
| `BlogPost.PostService.UpdateTwice` | project/libs/blog/blog-post/src/post/post.service.ts:34-43 | The same update applied twice to a stored post returns the same result both times. The second call writes nothing: the final posts and write log are exactly those of a single update. |
| `BlogPost.PostRepository.DeleteById` | project/libs/blog/blog-post/src/post/post.service.ts:52 | A missing id always rejects. The call may also reject for reasons of the store itself. A rejected call deletes nothing; a successful one removes exactly that post. No update is logged either way. |
| `BlogPost.PostService.Remove` | project/libs/blog/blog-post/src/post/post.service.ts:50-56 | Every rejection of the repository delete becomes NotFound for that id, and a missing post always fails that way. A failed remove leaves the posts unchanged; a successful one removes exactly that post. |
| `Interceptors.InjectUserId` | project/libs/shared/interceptors/src/lib/inject-user-id.interceptor.ts:8 | Afterwards the user-id header holds the user's subject, or undefined when there is no user. Every other header is present and unchanged exactly as before. |
| `Interceptors.ClientUserIdIsOverwritten` | project/libs/shared/interceptors/src/lib/inject-user-id.interceptor.ts:8 | Two requests that differ only in a client-supplied user-id header end up with identical headers. Header names are lower-case keys, as Node stores them, so a client cannot spoof the header. |
| `Interceptors.CallHandler.Handle` | project/libs/shared/interceptors/src/lib/inject-user-id.interceptor.ts:10 | Returns the handler's stream and counts exactly one more invocation. |
| `Interceptors.InjectUserIdInterceptor.Intercept` | project/libs/shared/interceptors/src/lib/inject-user-id.interceptor.ts:6-11 | The request's headers become `InjectUserId` of the old headers, in place. The next handler is invoked exactly once, and its stream is what is returned. |

## Left out

- Signature and expiry checks of the refresh token (passport-jwt, lines 19-22 of the strategy) are not modelled: the payload is taken as already verified.
- Check-then-delete in `Validate` runs as two separate store calls. Concurrent redemptions of one token are not modelled; the model is sequential.
- Issuing refresh sessions and sweeping expired ones belong to the refresh-token service, which is not part of this model; its initial live set is a constructor parameter.
- `PostService.findAll` (post.service.ts:21-23) is left out. It is a pass-through to the repository's paginated, filtered query, and that query is not part of this model.
- `PostFactory.createFromPostDTO` is not part of this model. DTOs arrive as field maps: `Fields` for `create` and `UpdateFields` for `update`. The update never carries the post's id.
- The entries of the update are visited in an order the model leaves open, whereas `Object.entries` fixes the order. Field names are distinct, so the result is the same for every order.
- `BlogPost.PostService.UpdateTwice`: for a missing post the two results may differ, because the lookup's choice between null and rejection is left open for each call. Neither call writes.
- `BlogPost.PostService.UpdateTwice`: the repository hands back the stored values themselves. If a repository rebuilt arrays and dates on every read, `!==` would see a change in each defined array or date field on the second call, and the call would write again. The model does not capture that.
- The literal name of the user-id header (`AppHeader.UserId`) is defined in a constants file that is not part of this model. The model uses the lower-case placeholder `x-userid`.
- `Interceptors.ClientUserIdIsOverwritten`: header names are taken as Node stores them in `request.headers`, in lower case. The anti-spoofing reading assumes `AppHeader.UserId` is lower case too. If it had upper-case letters, the assignment would add a second key and leave the client's lower-case header in place.
- The response stream of `next.handle()` is an opaque value. What happens after subscription is not modelled.
- Post field values do not include `NaN`, `-0` or fractional numbers. In JavaScript `NaN !== NaN` and `0 === -0`; a `NaN` field in an update would count as a change on every call. Numbers are modelled as integers.
- Why a repository delete rejects, other than for a missing post, is left open: the model lets such a rejection happen freely.
- Asynchronous execution (`async`/`await`, Observables) is modelled as sequential calls.
