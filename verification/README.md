# go-hauk: a verified model

This project models go-hauk, a location-sharing server with a polling web viewer, and proves what
its parts promise together.

- `Records`, `Store`, `Model`, `Api`: the records, the in-memory store, sessions and shares, and the
  six request handlers. Sessions, shares and the store are classes changed in place, as in the
  original. Each handler is proved to perform one step of the transition relation `Lifecycle.Step`
  and to keep the invariant `Lifecycle.Inv`.
- `Lifecycle`, `Safety`, `Runs`, `StaleTargets`: the transition relation, the invariant, its
  preservation by every step, and what follows for whole runs of the server, of any length, from an
  empty store under a clock that never goes back.
- `Effects`, `RoundTrips`: what a request may do to the records of others, and what the next request
  sees of the one before, in the fields of the requests.
- `Trail`, `Viewer`, `Sync`, `EndToEnd`, `GroupSync`, `NullAnswer`: the viewer's merge, prune and
  velocity code, and the incremental protocol between server and viewer, up to theorems about a viewer
  polling a solo share or a group during an arbitrary run of the server.
- `RateLimit`: the rate limiter, its equivalence with a limiter whose windows vanish at once, and over
  whole traces when exactly a call is refused and how many get through.
- `Linkgen`, `Uniform`: link generation by rejection sampling and why it is unbiased.
- `Geometry`, `Clip`, `Simplify`, `DrawOrder`: the vendored drawing algorithms, over reals.
- `Countdown`: the remaining-time text.

Conventions of the model. Times are real seconds since the epoch and expiries whole seconds; interval
and coordinates are reals, so there is no NaN and no rounding. JSON encoding is the identity on
records, except that a nil slice is kept apart from an empty one. Requests come in parsed; a failed
parse is `Malformed` or a missing number. The random source is a stream of bytes whose end is the
error of `rand.Read`. A new session id is assumed not to be in the store.

Two things the model brings out about the code:

- `Session.GetPoints` returns a nil slice when its filter finds nothing, and a group response encodes
  it as `null` (a solo response replaces it by an empty list). The viewer's loop in `processUpdate`
  throws on it, users it has not got to are not updated, and the handler of the error ends polling.
  `GroupSync.AnswerCompletes` says exactly when an answer is free of `null`: the viewer asked for
  everything, or every live host has a point newer than `since`. With the viewer's own `since` a user
  who is furthest behind and silent stops it (`GroupSync.FurthestBehindStops`); `NullAnswer` has a run
  in which that happens. Where it does not, `GroupSync.GroupEndToEndSync` says what is shown.
- Stopping a session also takes down a solo share of somebody else, exactly when the session still
  lists the share's link. `StaleTargets` proves the condition and gives a run in which it happens.

## Model

| member | source | states |
|---|---|---|
| Store.Memory.Get | store/memory.go:30-42 | a key reads back what was last stored under it, up to and including its expiry instant, and is absent after it; the zero time never expires |
| Store.Memory.Set | store/memory.go:44-55 | exactly one key changes |
| Store.Memory.Delete | store/memory.go:61-67 | exactly one key is gone, whether or not it was there |
| Store.Memory.Exists | store/memory.go:69-81 | a key is there up to and including its expiry instant, the zero time never expiring, as for `Get` |
| Records.RemoveFirstCounts | model/session.go:78-85 | removing a target takes exactly one occurrence out of the listing, if there is one |
| Records.NewerKeepsOrder | model/session.go:102-110 | the filter keeps exactly the points with a numeric time after `since`, each as often as it occurs and in the order they have |
| Model.Session.Load | model/session.go:49-56 | a session is found exactly while its record is live, with the stored data |
| Model.Session.AddTarget | model/session.go:74-76 | the listing grows by one entry at its end, duplicates included |
| Model.Session.RemoveTarget | model/session.go:78-85 | the first occurrence goes and the order of the others stays; nothing changes if there is none |
| Model.Session.AddPoint | model/session.go:87-92 | the window keeps the newest points, at most the configured number, 0 included |
| Model.Session.GetPoints | model/session.go:94-111 | all points for `since <= 0` or an encrypted session, else those newer, with a nil slice when there are none |
| Model.Session.Save | model/session.go:113-115 | the record is stored under the session's key with the session's expiry, nothing else changes |
| Model.LoadShareType | model/share.go:197-204 | tells a live solo share from a live group, and both from nothing |
| Model.SoloShare.Load | model/share.go:67-74 | a live solo record is read back as it is |
| Model.SoloShare.Save | model/share.go:88-90 | the record is stored with the share's own expiry, nothing else changes |
| Model.GroupShare.LoadByPin | model/share.go:123-130 | while the PIN index is sound, a live PIN yields a live group carrying it, with a writable host map |
| Model.GroupShare.AddHost | model/share.go:142-144 | a nickname is set, displacing whoever had it; only a map that is not nil may be written |
| Model.GroupShare.RemoveHost | model/share.go:146-153 | exactly one nickname of the session goes, whichever the iteration meets first, or none if it has none |
| Model.GroupShare.Save | model/share.go:155-160 | both the record and its PIN entry are written with the same expiry |
| Model.GroupShare.Delete | model/share.go:162-165 | both the record and the entry under its PIN are gone |
| Model.GroupShare.GetAllPoints | model/share.go:167-177 | every nickname with a live session, and no other, is given that session's points, in any iteration order |
| Model.GroupShare.GetAutoInterval | model/share.go:179-191 | the least interval over the live hosts, and 0 only if there is none |
| Model.LeastIntervalIsUnique | model/share.go:179-191 | only one number is the least interval, so the iteration order does not show |
| Api.PointOf | api/post.go:36-84 | a post is taken exactly when its required fields are there and, for a clear session, its numbers are in range, for an encrypted one, it has its initialization vector; the point then holds every posted field |
| Api.Server.ReadPost | api/post.go:36-84 | the branch for clear and the branch for encrypted sessions take exactly those posts, and put every field where it belongs |
| Api.Server.HandleCreate | api/create.go:22-204 | refuses every unacceptable request; an acceptable one joins exactly when the PIN is live and otherwise creates unless the random source ends before it gives a free link; the stored session has the requested encryption, salt, interval and duration and lists the answered link only, and the share has the requested kind, nickname, PIN and adoptability; the link is the custom one exactly where that is allowed, else the first free draft; nothing changes on refusal, no live share is touched by creating one, and the invariant is kept |
| Api.Server.Check | api/create.go:30-93 | passes exactly the requests the server may serve: duration and interval within the configured bounds, authenticated, and no encryption, missing nickname or missing PIN for groups; what a refused request is told is true of it |
| Api.Server.CreateSolo | api/create.go:113-143 | the new share and its session are stored together at an id that was not live: the custom link if allowed, so a reservation for somebody else only leads to a random draft; refused only if the random source gives no free link |
| Api.Server.CreateInNewGroup | api/create.go:145-175 | the new group starts with its creator as only host, under the same rule for its link and for refusal |
| Api.Server.CreateInGroup | api/create.go:177-199 | joining succeeds exactly when the PIN is live and enters the group the PIN stands for |
| Api.Server.TryCustomLink | api/create.go:206-240 | a custom link is allowed exactly when links may be requested, its reservation names the user, the whitelist admits it and no live share uses it |
| Api.Server.HandlePost | api/post.go:12-100 | stores a point exactly when the session is live and the post is acceptable; the stored points then end with the posted one, field by field, behind as many of the earlier ones as there is room for; reports the session's targets unless the second of expiry has come |
| Api.Server.HandleNewLink | api/newlink.go:10-60 | a live session gets, and lists at the end, a further solo share with its own expiry and the requested adoptability at the first free draft, unless the random source gives none; anything else changes nothing |
| Api.Server.FindOwnShare | api/adopt.go:29-67 | the caller may give away exactly a live adoptable solo share of its own unencrypted session |
| Api.Server.HandleAdopt | api/adopt.go:11-89 | adopts exactly when the share may be given away and the PIN is live: the session then lists the group the PIN leads to and is in it under the nickname, the other hosts as before; changes nothing otherwise |
| Api.Server.Release | api/stop.go:45-64 | a live solo target is deleted, a live group loses one nickname and is deleted when empty, a dead target changes nothing |
| Api.Server.HandleStop | api/stop.go:10-97 | a link not listed is left alone; a listed one is released and unlisted once; without a link every target is released in turn, the session deleted, and nothing live refers to it |
| Api.Server.HandleFetch | api/fetch.go:31-108 | a viewer is answered exactly while the share is live: a live solo share always finds its session, and a group answers its live hosts and their least interval, which is positive and no longer than that of any of them |
| Safety.RemoveNick | model/share.go:146-153 | a session loses exactly one nickname and no other session loses any |
| Safety.ReleaseCovers | api/stop.go:45-64 | releasing a target uses up one listing of it for the session that stops and none for any other, so coverage by listings is kept |
| Safety.ReleaseKeepsRest | api/stop.go:45-64 | hosting, PIN index and group rules survive a release, also when the group is deleted and its PIN entry stood for another group |
| Safety.AddSoloKeepsInv | api/create.go:113-138 | the invariant survives a new solo share, also where an expired share had the same id |
| Safety.AddToGroupKeepsInv | api/adopt.go:76-83 | the invariant survives a nickname in a new or live group, also a second one for the same session, a displaced host and a reused PIN |
| Safety.PostKeepsInv | api/post.go:86-90 | the invariant survives a post |
| Safety.StopLinkKeepsInv | api/stop.go:32-67 | the invariant survives stopping one link |
| Safety.ReleaseAllCovers | api/stop.go:69-91 | after the loop over all targets every listing has been used up once, in multiset terms |
| Safety.StopAllErases | api/stop.go:68-93 | after a full stop no live solo share has the session as host and no live group has it under any nickname, although each iteration removes one |
| Safety.InvOverTime | store/memory.go:38-40 | expiry never breaks the invariant: linked records disappear together |
| Safety.StepKeepsInv | api/stop.go:10-97 | every step of every handler keeps the whole invariant |
| Runs.RunKeepsInv | api/server.go:56-61 | the invariant holds before and after every request of every serial run from an empty store |
| Runs.SoloAlwaysFindsSession | api/fetch.go:58-70 | in every state of every run a live solo share has a live host with the same expiry that lists it, so a fetch never misses the session |
| Runs.NicksWithinTargets | model/session.go:74-85 | in every state of every run a live session has at most as many nicknames in a live group as its targets list the group |
| Runs.PinLeadsToGroup | model/share.go:123-130 | in every state of every run a live PIN entry leads to a live group with that PIN, the same expiry and at least one host, PIN collisions included |
| Runs.StoppedForGood | api/stop.go:68-93 | a fully stopped session is in no later state of the run again, as long as its random id is not drawn again |
| Runs.CreationNeverClobbers | api/create.go:112-163 | a creating step changes no live share and no other session; this is immediate from the guard of the step, and the work is in the handlers, which establish the guard and state the same of the stored data |
| Runs.SharesAreStable | api/newlink.go:42-55 | no step rewrites a live solo share or the PIN and expiry of a live group; only a stop takes them away |
| Runs.SoloLasts | api/create.go:112-163 | over any stretch of a run a solo share that has not expired and is not stopped keeps its record |
| Runs.GroupReadsAreExact | model/share.go:167-191 | in every state of every run the live hosts of a live group are unencrypted with positive intervals, and each is shown precisely its points newer than a positive `since`; exactly a host with none is encoded as null |
| Effects.SessionsKeepTerms | api/create.go:95-111 | a session stays in the store until a full stop of its own; no request changes its expiry, interval, encryption or salt, only its own posts change its points and only its own other requests its targets |
| Effects.StopKeepsSessions | api/stop.go:32-93 | a stop leaves every other session as it was, and its own with one listing less or gone |
| Effects.HostsStay | api/stop.go:45-64 | no request but a stop of the host itself or an entry under its nickname takes a host out of a live group or the group down |
| Effects.GroupLasts | api/stop.go:45-64 | over any stretch of a run a group with a host for which neither happens keeps the host, its PIN and its expiry until it expires |
| RoundTrips.CreateThenFetch | api/create.go:95-143 | a fetch of the answered link right after creating a solo share answers the requested encryption, salt, interval and expiry, and no points |
| RoundTrips.CreateThenJoin | api/create.go:145-199 | whoever has the PIN of a new group can join it at once, and is then in it with its creator |
| RoundTrips.PostThenFetch | api/post.go:86-90 | a fetch of everything right after an acceptable post ends with the posted point, clear or encrypted, field by field |
| RoundTrips.PostThenShow | frontend/main.js:699-759 | a page that then shows the answer has the newest post at the end of its trail, with the posted coordinates, time, speed and accuracy |
| StaleTargets.StopAllTakesListed | api/stop.go:69-79 | a full stop takes a live solo share down if and only if the session lists its id, whoever hosts it |
| StaleTargets.StopLinkTakesOne | api/stop.go:45-52 | stopping a link takes a live solo share down if and only if it is that link, whoever hosts it; a direct reading of one release |
| StaleTargets.GuestStopsStranger | api/stop.go:32-67 | a reachable run in which a session stops a solo share it never hosted |
| Linkgen.RandomSource.RandInt | linkgen/linkgen.go:115-125 | reads exactly up to the first byte below the largest multiple of the bound and returns its remainder, or fails when every byte is at or above it |
| Linkgen.RandomSource.RandomString | linkgen/linkgen.go:95-105 | spells precisely the first `length` accepted bytes of the stream, letter by letter, and reads no further |
| Linkgen.FirstAccepted | linkgen/linkgen.go:95-125 | what is read up to the n-th accepted byte holds exactly the first n accepted bytes of the whole stream; if the stream runs out there were fewer than n |
| Linkgen.Generator.Generate | linkgen/linkgen.go:29-43 | the link is the first draft the stream gives that no live share uses: all drafts before it are taken; there is none only if what is left of the stream after taken drafts is too short for another, and nothing else is read |
| Linkgen.LinkIsDetermined | linkgen/linkgen.go:29-43 | the bytes of the stream and the live shares determine whether there is a link and which it is |
| Linkgen.Generator.GenerateOne | linkgen/linkgen.go:45-74 | each style makes its draft of exactly the random bytes it reads, and fails exactly when the stream is too short for it |
| Linkgen.DraftsHaveStyle | linkgen/linkgen.go:45-113 | every draft has the length, dashes and letters of its style; UUIDs have version 4 and variant 10 |
| Linkgen.HexReadsBack | linkgen/linkgen.go:87-93 | every random byte can be read back from its two digits in a hexadecimal draft |
| Linkgen.UuidReadsBack | linkgen/linkgen.go:76-85 | every random bit but the six fixed ones can be read back from a UUID, each from its place |
| Uniform.PreimagesAre | linkgen/linkgen.go:95-125 | the counted set is exactly the accepted byte sequences that spell the string |
| Uniform.UnbiasedLinks | linkgen/linkgen.go:95-125 | every string over an alphabet of m letters comes from exactly (256 / m)^n accepted byte sequences |
| Uniform.AlphabetsAreDistinct | linkgen/linkgen.go:14-16 | none of the three alphabets repeats a letter, so the count applies to them |
| Uniform.AlphabetsHave | linkgen/linkgen.go:14-16 | the letters each alphabet is made of and how many there are |
| Trail.MergeFindsMaxima | frontend/main.js:719-759 | merging from nothing keeps exactly the strict left-to-right maxima in time |
| Trail.MaximaIncrease | frontend/main.js:717-759 | a trail is strictly increasing in time |
| Trail.FilteredMerge | frontend/main.js:719-759 | dropping points the trail has already passed does not change a merge |
| Trail.UpdatePruned | frontend/main.js:825-830 | pruning a trail before an update does not show after it |
| Trail.WindowStart | frontend/main.js:777-794 | the earliest index whose span to the newest point fits, or the newest point itself |
| Viewer.Viewer.GetOldestPointTime | frontend/main.js:461-473 | the least newest time over all users that have a trail, 0 if none has |
| Viewer.Viewer.ProcessUpdate | frontend/main.js:664-839 | gets through all listed users if and only if no list is `null`, else through some of the others and one of those; a user it got through has the pruned merge as trail and is shown at the true speed of the unpruned one, the user it stopped at has an entry, and all else stays; trails stay increasing |
| Viewer.Viewer.ProcessUser | frontend/main.js:664-830 | one user's trail and shown speed change, nobody else's, and the speed shown is that of the merged trail: the client's figure in the configured unit, else that which covers the length of the window's segments in the window's time; on `null` nothing changes but that the user has an entry |
| Viewer.Viewer.VelocityOverWindow | frontend/main.js:773-797 | the backward loop yields the average over the window from the earliest fitting index from 1 on, its time being one difference |
| Viewer.EmptyWindow | frontend/main.js:777-794 | the time is 0 exactly when no segment was used, which is when there are at most two points or the last segment alone is too long |
| Viewer.SpeedIsSpeed | frontend/main.js:926-929 | the shown speed times the span of the window is the sum of its segments in the configured unit, the window being given by the times alone; 0 without a segment; the client's figure in the configured unit where there is one |
| Viewer.SteadySpeed | frontend/main.js:773-797 | a trail that moves at a constant rate through its window is shown at that rate |
| Sync.SinceOfSingle | frontend/main.js:461-473 | with a single user the computed `since` is the newest time of the trail, 0 while there is none |
| Sync.IncrementalEqualsFull | frontend/main.js:461-473 | for every user with a trail, the list cut off at the common `since` merges to the same trail as the whole list, for any number of users and any sign of `since` |
| Sync.NewcomerEqualsFull | frontend/main.js:461-473 | for a user without a trail this holds if and only if `since` is not positive, the list is empty or its first point is newer than `since` |
| Sync.CatchUp | model/session.go:87-111 | one poll catches up completely if no more new points were posted than the window holds, filtered or not |
| Sync.CatchUpFrom | model/session.go:87-111 | so it does for a viewer that never had the earlier points, if nothing it missed is newer than what it has, and for any `since` its trail has reached |
| Sync.CatchUpIsTight | model/session.go:87-92 | for every window and trail length one post more can lose the whole trail |
| EndToEnd.StepPoints | model/session.go:87-92 | no request but a post to the session itself changes its stored points or whether it is encrypted |
| EndToEnd.WindowOfHistory | model/session.go:87-92 | in every state of every run the stored points of a session are the last ones posted to it |
| EndToEnd.AnswerIsWindow | api/fetch.go:40-83 | what a poll of a live solo share is answered is the window on the session's history, possibly cut off at `since` |
| EndToEnd.EndToEndSync | frontend/main.js:699-830 | after every poll of a live solo share the viewer shows exactly the last MAX_POINTS strict time maxima of everything posted, clear or encrypted, whatever else the server does, given at most a window of posts before the first poll and between polls |
| GroupSync.GroupUpdateIsFull | model/share.go:167-177 | in every state of every run a user with a trail loses nothing by an incremental group answer: a list gives the trail that the full points would, and where there is `null` the full points would change nothing |
| GroupSync.NullMeansNothingNewer | model/session.go:94-111 | a live host's list is `null` if and only if `since` is positive and none of its stored points is newer |
| GroupSync.AnswerCompletes | frontend/main.js:699-702 | the viewer gets through a group answer if and only if `since` is not positive or every live host has a stored point newer than it |
| GroupSync.FurthestBehindStops | frontend/main.js:461-473 | with the viewer's own positive `since`, the list of a user who is furthest behind is `null`, and so stops the viewer, exactly when the user has nothing newer than what is shown |
| GroupSync.GroupEndToEndSync | frontend/main.js:699-830 | after every poll of a live group each user's trail is exactly the last MAX_POINTS strict time maxima of the points the viewer was first given for the user followed by everything the user has posted since, whatever else the server does and however many users there are, given that no answer has stopped the viewer and at most a window of posts between polls |
| GroupSync.GroupShowsWholeHistory | frontend/main.js:699-830 | for a viewer that was first given everything posted, no more than a window, these are the maxima of the whole history |
| NullAnswer.AnnStopsTheViewer | frontend/main.js:461-473 | a reachable run in which the viewer's own `since` is answered `null` for one user, at which it can stop before it gets to the new point of another |
| RateLimit.Limiter.Allow | ratelimit/ratelimit.go:37-77 | refuses a call if and only if it is due: its key has a window open in which exactly `limit` calls were let through, or it has none and MAX_ENTRIES other keys have one; windows are given by the calls let through and their times; decides as a limiter whose windows vanish the moment they run out, whenever sweeps happen, and never stores more than the cap |
| RateLimit.Limiter.Admit | ratelimit/ratelimit.go:48-76 | the decision and the live windows after it depend on the live windows before it only |
| RateLimit.Limiter.Sweep | ratelimit/ratelimit.go:49-56 | exactly the stale windows go |
| RateLimit.CallAppended | ratelimit/ratelimit.go:48-76 | a later call decides on the windows still live in the stored table |
| RateLimit.LiveIsSmaller | ratelimit/ratelimit.go:58-63 | there are fewer live windows than stored ones unless none is stale |
| RateLimit.RefusedWhenDue | ratelimit/ratelimit.go:58-76 | on any trace in the order of time and for any positive limit a call is refused if and only if it is due to be |
| RateLimit.Account | ratelimit/ratelimit.go:58-76 | all requests let through from a time on are accounted for by windows that are at most `limit` full and more than a window's length apart |
| RateLimit.RateBound | ratelimit/ratelimit.go:37-77 | in any closed interval of length L one key gets at most limit * (ceil(L / window) + 1) requests through, across sweeps, restarts and other keys |
| Clip.CutCovers | frontend/lib/leaflet/1.6.0/leaflet.js:5 | cutting an end off at a side it is beyond loses nothing inside the box |
| Clip.CutCode | frontend/lib/leaflet/1.6.0/leaflet.js:5 | a cut point is beyond no side that neither end was beyond, nor beyond the side it is on |
| Clip.OneCut | frontend/lib/leaflet/1.6.0/leaflet.js:5 | a round of the clip loop never divides by 0, keeps hold of everything inside and leaves fewer sides to clip |
| Clip.Clipper.ClipSegment | frontend/lib/leaflet/1.6.0/leaflet.js:5 | terminates with nothing exactly when the segment misses the box, else with exactly its part inside; the code kept for the next call is that of the end point |
| Clip.ClippedIsVisible | frontend/lib/leaflet/1.6.0/leaflet.js:5 | as a set of points the result is the segment within the box |
| Clip.Clipper.ClipRing | frontend/lib/leaflet/1.6.0/leaflet.js:5 | the code kept from one edge equals the recomputed code of the next edge's start, and the parts draw the visible pieces of the ring in order, one part per exit; a ring that is all inside comes back whole |
| Clip.Clipper.ClipPoints | frontend/lib/leaflet/1.6.0/leaflet.js:5 | over all rings the parts draw exactly the visible pieces in order, also where a path is skipped because its own bounds are clear of the box; an unclipped path that meets the box and a path that is all inside keep their rings |
| Clip.PxBounds | frontend/lib/leaflet/1.6.0/leaflet.js:5 | a path's own bounds are, but for the padding on every side, the smallest box with all its points, and there are none only if it has no points |
| Clip.AllMissed | frontend/lib/leaflet/1.6.0/leaflet.js:5 | no part of a path whose bounds are clear of the box is in the box, so skipping it does not show |
| Simplify.SegDistIsLeast | frontend/lib/leaflet/1.6.0/leaflet.js:5 | the squared distance to a segment is attained on it and least among its points |
| Simplify.ReducePoints | frontend/lib/leaflet/1.6.0/leaflet.js:5 | keeps both ends; each dropped point is within tolerance of the kept one before it, and kept ones but the last are further apart than the tolerance |
| Simplify.Mark | frontend/lib/leaflet/1.6.0/leaflet.js:5 | terminates having marked exactly the points of the Douglas-Peucker rule, and no mark outside its range changes |
| Simplify.KeptIsEnough | frontend/lib/leaflet/1.6.0/leaflet.js:5 | with the points of the rule marked, each dropped point is within tolerance of the segment between its nearest kept neighbours |
| Simplify.KeptIsFar | frontend/lib/leaflet/1.6.0/leaflet.js:5 | and none is kept without need: each was too far from, and the first of those farthest from, the segment between two other kept points around it |
| Simplify.SimplifyDP | frontend/lib/leaflet/1.6.0/leaflet.js:5 | the result is the marked points in order, both ends among them, with each dropped point within tolerance of its segment and each kept one too far from one |
| Simplify.Simplify | frontend/lib/leaflet/1.6.0/leaflet.js:5 | both passes keep exactly what their rules say; no tolerance or no points leaves the line as it is |
| Simplify.SimplifiedIsClose | frontend/lib/leaflet/1.6.0/leaflet.js:5 | the result is a subsequence with both ends and no input point is further from it than twice the tolerance |
| DrawOrder.Canvas.InitPath | frontend/lib/leaflet/1.6.0/leaflet.js:5 | a new entry for the layer is appended on top and the links stay well formed; every entry is still that of its layer exactly when the layer had none in the list |
| DrawOrder.Canvas.RemovePath | frontend/lib/leaflet/1.6.0/leaflet.js:5 | the links stay well formed, only the layer's entry is cut out and the others are in the order they had |
| DrawOrder.Canvas.BringToFront | frontend/lib/leaflet/1.6.0/leaflet.js:5 | the list stays well formed and the layer is the last one, the others being in the order they had; a layer without an entry changes nothing |
| DrawOrder.Canvas.BringToBack | frontend/lib/leaflet/1.6.0/leaflet.js:5 | the list stays well formed and the layer is the first one, the others being in the order they had; a layer without an entry changes nothing |
| DrawOrder.Canvas.Draw | frontend/lib/leaflet/1.6.0/leaflet.js:5 | redrawing visits the layers to draw from bottom to top, each once |
| DrawOrder.MovesKeepOrder | frontend/lib/leaflet/1.6.0/leaflet.js:5 | a move or removal keeps the elements and the order of any two others |
| DrawOrder.DrawsInOrder | frontend/lib/leaflet/1.6.0/leaflet.js:5 | what a redraw visits are exactly the positions whose layers are to be drawn, in increasing order |
| Countdown.Tick | frontend/main.js:409-424 | no text once the share is over, else the text of the remaining seconds |
| Countdown.TextReadsBack | frontend/main.js:415-424 | the text reads back as the number of seconds it shows |
| Countdown.TextIsInjective | frontend/main.js:415-424 | different remaining times never display the same |
| Countdown.TextFields | frontend/main.js:415-424 | hours are shown from one hour on only; seconds have two places always, minutes have two after hours and no needless zero otherwise, and each field is the decimal numeral of its share of the time |

The invariant that every handler keeps is `Lifecycle.Inv`. Where it says how often a session lists a
group it is a multiset inequality, since one session may sit in a group under several nicknames and
list the group several times.

## Left out

- Concurrent requests: a handler loads, changes and saves without a transaction, so runs are serial.
- The clock is read once per request (twice in the limiter), not at every store access.
- `store/redis.go`, `SetTTL` and `Clear`: the lifecycle is stated over the in-memory store.
- Failing writes: records are taken to be saved whenever they are saved.
- HTTP routing, form parsing, response texts, static files, configuration loading and `auth/`:
  authentication is a boolean of the request.
- Completeness of the PIN index, and "a target implies a host": the code guarantees neither, because
  PINs are drawn without a collision check and a reused nickname displaces the earlier host.
- Map markers, colours, panning, localisation, decryption and the distance and bearing formulas of the
  viewer: decryption and distance are uninterpreted functions.
- The viewer after a `null` has stopped it: polling has ended then, and it says that the share is gone.
- The server's time in answers, and the clock offset the viewer computes from it.
- Lost or reordered responses to polls: a poll is answered at the step it is made.
- The rounding of clipped points and floating point in general: the drawing code is over reals.
- Polygon clipping and the rest of Leaflet.
- The renderer's `_layers` table: only the draw order is modelled.
- Layers of several renderers: a layer is taken to be in the list of the canvas that handles it.
- RateLimit.Limiter.Allow: takes a window that is not negative, as the server configures it.
- Clip.Clipper.ClipSegment: takes bounds whose minimum does not exceed their maximum.
