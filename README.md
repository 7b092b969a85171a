# Create-or-fetch volume provisioning (csi-cinder controller core)

This project models the decision logic of a CSI controller plugin that backs
volumes with an OpenStack Cinder block-storage service. Its core is
name-keyed create-or-fetch: resolve the requested volume name against a
paginated backend listing, then reuse the record found, report a lookup
failure, or issue a single backend create.

- `volumes.dfy` (module `Volumes`): the backend volume record and its zero
  value, which means "not found". Also listing pages, where a page either
  yields its records or fails to extract, the options of a create call, and
  the backend's answer to it. `FirstMatch` is the exact-name search within one
  page. `Records`, `Named` and `Paginate` describe listings of a set of backend
  records.
- `listing.dfy` (module `Listing`): what the name resolver computes, as pure
  functions. `Scan`/`Resolve` model the resolver as written.
  `ResolveIntended` models it as evidently intended (see Findings). The
  lemmas characterise both.
- `service.dfy` (module `VolumeService`): the imperative code. The page
  callback `HandlePage` contains the `for ... range` loop over a page's records
  (`FindInPage`). Class `Service` holds the backend's records (`volumes`), the
  create calls issued (`creates`) and the mount directories made
  (`mountDirs`). `GetVolumeByName` drives the callback page by page and
  honours its continue/stop flag. `CreateVolume` resolves the name, then
  `Provision` takes the reuse / error / create decision.

The gophercloud pager calls the callback once per page and stops when it
answers `false` or an error. The resolver's callback answers `true` after a
page holding an exact match and `false` after a page holding none. So as
written, the walk continues past matching pages and stops at the first page
without a match. The page that ends the leading run of matching pages decides
(`Listing.ScanOutcome`). If that page failed to extract, the result is its
error with the zero record. Otherwise the result is the first exact match of
the run's last page, or the zero record when the run is empty.

The following are parameters rather than computed:
- the remote listing: a sequence of pages, which may contain records with
  other names;
- the backend's answer to a create: an identifier and status, or error text;
- the outcome of making the local mount directory.

Where the code and its evident intent differ, the model follows the code:
- The evident intent is to stop at the first exact match and skip pages
  without one. The code's flag does the opposite, as described above.
- The `mutex` field (service/service.go:26) suggests that creates are
  serialised. It is never initialised or locked.
- A successful create answers an empty response (service/service.go:111),
  not the new record. This is modelled as `Created`.
- A create failure and a failure to make the mount directory are both
  answered with a response carrying the error text
  (service/service.go:105, 109). Both are modelled as `Failed`. The backend
  state still tells them apart: after a directory failure the new record
  exists.

## Model

| member | source | states |
|---|---|---|
| Volumes.FirstMatch | service/service.go:63-68 | the index found holds a record whose Name equals the requested name exactly, and every earlier record in the page has another name; \|page\| means no match |
| VolumeService.FindInPage | service/service.go:63-68 | the loop over a page's records returns exactly FirstMatch: the position of the first exact-name match, or the page's length when there is none |
| VolumeService.HandlePage | service/service.go:58-71 | an extraction failure yields its error and "stop"; a page with an exact match yields "continue" and captures that page's first match; a page with none yields "stop" and leaves the captured record as it was |
| Listing.Scan | service/service.go:57-76 | the walk's result is the zero record whenever an error ends it, and otherwise either the record captured before it or a record with the requested name |
| Listing.ScanOutcome | service/service.go:58-76 | closed form of the walk: the page ending the leading run of matching pages decides; an extraction failure there gives (zero, its text); otherwise the result is the first match of the run's last page, or the captured record if the run is empty |
| VolumeService.Service.GetVolumeByName | service/service.go:54-77 | the paged loop honouring the continue/stop flag, and ending at an empty page as the pager does, returns exactly Resolve(listing, name); an error comes with the zero Volume; a non-zero result has the requested name |
| Listing.ResolveErrorIff | service/service.go:59-75 | resolution reports an error if and only if some failing page is reached, i.e. every page before it held a match; the error comes with the zero Volume and the text of the failing page the walk reached, i.e. one all of whose predecessors held a match, so it is never a plain "not found" |
| Listing.ResolveFound | service/service.go:63-76 | a non-zero result carries no error, has the requested name and is the first exact match of some page of the listing; records with other names are never returned |
| Listing.ResolveNotFound | service/service.go:69-76 | an empty listing, or a first page without an exact match, resolves to the zero Volume with no error |
| Listing.ResolveStopsAtUnmatchedPage | service/service.go:69-70 | pages after the first page without a match never change the outcome: the walk stops there |
| Listing.ResolveFilteredListing | service/service.go:64-66 | when every listed record has the requested name and no page is empty or fails, every page is visited and the first record of the last page is returned |
| Listing.ResolveNamedListing | service/service.go:55-76 | a faithfully name-filtered listing of the backend's records, paged at any size, resolves without error to a backend record with that name when one exists, and to the zero Volume when none does |
| Listing.AsWrittenMissesLaterPage | service/service.go:64-70 | counterexample: records "x-old" then "vol-c" listed one per page resolve "vol-c" to not found as written, and to the "vol-c" record with the intended flag |
| Listing.ResolveIntended | service/service.go:58-71 | the resolver with the flag corrected, ending like the pager at an empty page: an error comes with the zero Volume, and any non-zero result has the requested name |
| Listing.ResolveIntendedIsFirstMatch | service/service.go:58-71 | with no extraction failure and no empty page, the corrected resolver returns the first exact match of the whole listing (zero if none), independently of how the listing is cut into such pages |
| Listing.ResolveIntendedStopsAtEmptyPage | service/service.go:58-71 | an empty page reached after pages without a match ends the corrected walk with the zero Volume and no error; later pages are never consulted |
| VolumeService.HandlePageIntended | service/service.go:58-71 | the corrected callback: "stop" with the first match after a matching page, "continue" with the captured record unchanged after a page with none, "stop" with the error after an extraction failure |
| VolumeService.Service.FindVolumeByName | service/service.go:54-77 | the paged loop with the corrected callback, ending at an empty page as the pager does, returns exactly ResolveIntended(listing, name) |
| VolumeService.Service.Provision | service/service.go:89-113 | a failed lookup gives an UNKNOWN CreateVolume error and changes nothing; a found record is returned unchanged, whatever the request parameters, and changes nothing; otherwise exactly one create is issued with size 1, type = the "vtype" parameter (empty when absent), description "CSI Volume" and the request name; a rejected create surfaces the backend text, adds no record and makes no directory; an accepted one appends exactly that record, then a directory failure surfaces its text and success makes the directory for the name |
| VolumeService.Service.CreateVolume | service/service.go:79-122 | the same decision taken on Resolve(listing, name); a reused record always has the requested name; backend records keep non-empty identifiers |
| VolumeService.Service.CreateVolumeIntended | service/service.go:79-122 | the same decision taken on the corrected resolver's result |
| VolumeService.Service.CreateExisting | service/service.go:84-93 | reuse on the backend's own state: when a record with the requested name exists and the listing is the backend's records under a faithful name filter at any page size, a backend record with that name is returned, whatever the parameters and the backend's answer, and records, create calls and directories are all unchanged |
| VolumeService.Service.CreateTwice | service/service.go:84-103 | idempotence as written, for a name-filtered listing of the backend's records at any page size: with no record of the name yet, the first call creates it and the second returns that same record; across both calls one create is issued, one record is added, and the directory is made at most once, by the first call |
| VolumeService.Service.CreateTwiceIntended | service/service.go:84-103 | the same idempotence with the corrected resolver, for the backend's records listed without any name filter at any page size, with the same final records, create calls and directories |

## Left out

- `New` (service/service.go:29-52): authentication, endpoint and region setup against OpenStack. This is session plumbing; the model starts from an already-built `Service`.
- The `Service` interface (service/service.go:18-22) and the CSI/gocsi response types. Responses are the four-case `Response` datatype.
- The local directory step (service/service.go:107-110) is reduced to its outcome, which is a parameter. Success is recorded as the request name in `mountDirs`. `filepath.Join`, the mount root and file modes are not modelled, and the lines refer to names the file does not define (`s.Conf`, `r.Name`, `volume.Response`).
- Concurrency and locking. The `mutex` field is never locked, so the model is sequential. Concurrent same-name creates are not modelled.
- Request context and cancellation. `ctx` is never read by the code.
- The gophercloud pager, HTTP transport and error types. A listing is a given sequence of pages, and a page fetch failure is folded into the page's extraction failure. The one pager rule kept is that the walk ends at an empty page without calling the callback: both page loops and `ResolveIntended` do so. For the callback as written this changes nothing, since it would answer "stop" there too.
- Volume fields other than id, name, status, size, type and description. Their zero values are part of "not found" but play no other role.
- The zero-value test (service/service.go:93) treats a listed record equal to the zero Volume as "not found". Backend records have non-empty identifiers (`Service.Valid`), so no backend record is the zero Volume; `CreateExisting` relies on this.
- VolumeService.Service.CreateTwice: states idempotence only for a listing filtered by name. With an unfiltered, multi-page listing the code as written can create twice (see Findings).

## Findings

| source | as written | input that shows it | evidently intended | confidence | as-written member | corrected member |
|---|---|---|---|---|---|---|
| service/service.go:64-70 | the page callback returns `true` after an exact match and `false` after a page with none; the pager treats `false` as "stop", so the walk stops at the first page without a match and continues after matches | backend records "x-old" then "vol-c" listed without name filtering, one per page: resolving "vol-c" gives "not found", so CreateVolume would create a second "vol-c" | return `false` (stop) after the first match and `true` (continue) after a page with none, i.e. the first exact match of the whole listing | medium, not executed | Listing.AsWrittenMissesLaterPage | VolumeService.Service.FindVolumeByName |

`CreateVolume` keeps the code's behaviour. `CreateVolumeIntended` and
`CreateTwiceIntended` use the corrected resolver. `CreateTwiceIntended`
proves idempotence for any paging of the unfiltered records.
