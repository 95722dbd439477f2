# IP-Manager (ip_register) in Dafny

This project models the core of the `ip_register` Drupal module. The module lets a
library (an *organization*) keep its IP address ranges on file and send *IP changes*
to the vendors (*IP registrars*) that license content to it. An IP change lists:

- the ranges to confirm or add (`add_ip`),
- the ranges created during the change (`add_new_ip`),
- the ranges to remove (`delete_ip`),
- the registrars to notify.

Confirming a change does four things:

1. It mails the registrars a plain-text notification.
2. It applies the registrar delta to the ranges: each `add_ip` range gets the change's registrars appended (`array_merge`), and each `delete_ip` range loses them (`array_diff`).
3. It deletes the `delete_ip` ranges.
4. It saves the change, then marks only the in-memory object completed (`setStatus(TRUE)` comes after the last `save()`).

When the mail goes out, step 2 runs twice: `sendRegistrarEmails` applies the delta after a successful send, and `submitForm` then calls `setIpRangeRegistrars`, which applies it again whatever the send did. The model states this as the code does it. `IpChangeConfirmForm.SentAppendsTwice` shows the change's registrars appended twice. `IpChangeConfirmForm.SentRegistrarSet` shows that, as a set, the result is what one application gives. Nothing in the code says whether the doubling is intended, so it is not listed as a finding.

After a failed send the code contradicts its own message. `sendRegistrarEmails` tells the user "Your changes have NOT been applied" (src/Entity/IpChange.php:273-277). `submitForm` then still calls `setIpRangeRegistrars`, deletes the `delete_ip` ranges and saves the change (src/Form/IpChangeConfirmForm.php:122-140). `IpChangeConfirmForm.FailedSendStillApplies` shows a listed range whose registrars change and every `delete_ip` range gone after `SendFailed`. The model keeps the code's behaviour.

The notification body is built by `t()`. `t()` HTML-escapes each plain-string placeholder, and the model follows that (`Html`):

- the header fields and the comment are escaped once;
- each range line escapes its title and organization label in its own `t()` call;
- the line-by-line concatenation is a plain string again, so the outer `t()` escapes the whole range section a second time.

The model runs against an `EntityStore`, which stands in for Drupal's entity storage:

- a map of stored `ip_range` rows and a map of stored `ip_change` rows.
- the registrar configuration entities and the organization labels.
- a log of side effects: mails sent, entities saved or deleted, exports run. The log is what lets the contracts state the order of those effects.

The two content entities are classes. `Load` hands out a fresh object for a stored row, and `Save` writes the object's fields back, running `preSave` for a range first. This is what makes the order of `save()` and `setStatus(TRUE)` observable.

Modules, following the source files:

- `IpRangeEntity`, `RangeDeletion` (`src/Entity/IpRange.php`): creation defaults, accessors, the title rule, and the load-then-delete loop.
- `IpChangeEntity`, `RegistrarDelta`, `EmailBody`, `MailText` (`src/Entity/IpChange.php`): creation defaults, the notification body and its Bcc list, and `sendRegistrarEmails` / `setIpRangeRegistrars`.
- `IpChangeForm`, `IpChangeConfirmForm`, `IpChangeDeleteForm`, `IpRangeForm`: the four forms.
- `IpManagerController`: the organization's range table.
- `Access`, `IpChangeAccess`, `IpRangeAccess`: the two access handlers.
- `Storage`, `IpAddress`, `PhpArrays`, `Html`, `Wrappers`, `Routes`: the storage, IPv4 display (`inet_ntop`), the PHP array built-ins used, the placeholder escaping of `t()`, optional values, and route names.

## Model

| member | source | states |
|---|---|---|
| PhpArrays.Diff | src/Entity/IpChange.php:267 | array_diff keeps exactly the elements that are not removed, in order, and never grows the list |
| PhpArrays.DiffIdempotent | src/Entity/IpChange.php:265-268 | diffing a second time with the same registrars changes nothing, so the repeated inner loop equals one diff |
| PhpArrays.DiffDisjoint | src/Entity/IpChange.php:141-150 | removing elements the list does not hold keeps it as it is |
| PhpArrays.DiffNothing | src/Entity/IpChange.php:265-268 | with no change registrars the list is unchanged |
| PhpArrays.DiffAppend | src/Entity/IpChange.php:267 | array_diff distributes over concatenation, so survivors keep their relative order |
| PhpArrays.Dedup | src/Controller/IpManagerController.php:136-141 | the in_array loop yields exactly the labels of the input, each once |
| PhpArrays.DedupOfDistinct | src/Controller/IpManagerController.php:136-141 | a list without duplicates passes through unchanged |
| PhpArrays.DedupPrefix | src/Controller/IpManagerController.php:136-141 | first occurrence decides position: Dedup of a prefix is a prefix of Dedup |
| PhpArrays.ExplodeImplode | src/Entity/IpRange.php:78 | explode undoes implode when no part holds the delimiter; the title round trip relies on this |
| IpAddress.Decimal | src/Entity/IpRange.php:78 | the decimal text of an octet is a non-empty string of digits |
| IpAddress.DecimalRoundTrip | src/Entity/IpRange.php:78 | the decimal text reads back as the number |
| IpAddress.Format | src/Entity/IpRange.php:78 | inet_ntop of an IPv4 endpoint contains no space |
| IpAddress.FormatRoundTrip | src/Entity/IpRange.php:78 | the dotted-decimal text of an IPv4 endpoint parses back to that endpoint |
| IpAddress.TitleRoundTrip | src/Entity/IpRange.php:75-80 | the title "start - end" of an IPv4 range parses back to both endpoints |
| IpAddress.TitleParts | src/Entity/IpRange.php:75-80 | an IPv4 range title splits at spaces into the start, the dash and the end |
| IpAddress.TitleImplode | src/Entity/IpRange.php:75-80 | the title is the start, the dash and the end joined by single spaces |
| IpAddress.TitleInjective | src/Entity/IpRange.php:75-80 | two IPv4 ranges with equal titles have equal endpoints |
| Storage.Referenced | src/Entity/IpChange.php:233-235 | referencedEntities(): exactly the referenced ids that still load, never more than referenced |
| Storage.ReferencedOne | src/Entity/IpChange.php:233-235 | one reference yields that entity iff it loads |
| Storage.ReferencedAppend | src/Entity/IpChange.php:233-235 | reference order is kept: the entities of the first references come first |
| Storage.ReferencedPrefix | src/Entity/IpChange.php:233-235 | the entities of the first k references are a prefix of those of all references |
| Storage.ReferencedAllStored | src/Entity/IpChange.php:233-235 | when every reference loads, the result is the reference list itself |
| Storage.Labels | src/Form/IpChangeConfirmForm.php:77-80 | one label per registrar, position by position |
| Storage.DeletionsOnce | src/Form/IpChangeConfirmForm.php:124-135 | the load-then-delete loop deletes every listed stored range, only those, and each once |
| Storage.EntityStore.LoadByOrganization | src/Form/IpChangeForm.php:61-65 | loadByProperties: every range of the organization, and only those, each once |
| IpRangeEntity.PreCreate | src/Entity/IpRange.php:59-70 | the route organization overwrites the organization; the owner is the current user only when none was given |
| IpRangeEntity.PreCreateIdempotent | src/Entity/IpRange.php:67-69 | `+=` never overwrites, so a second preCreate changes nothing |
| IpRangeEntity.IpRange.constructor | src/Entity/IpRange.php:219-223 | a new range is unsaved, not registered (status default FALSE), and has no registrars |
| IpRangeEntity.IpRange.SetTitle | src/Entity/IpRange.php:85-96 | getTitle() returns the title set |
| IpRangeEntity.IpRange.SetStatus | src/Entity/IpRange.php:100-110 | isRegistered() returns the status set |
| IpRangeEntity.IpRange.PreSave | src/Entity/IpRange.php:75-80 | the title becomes "inet_ntop(start) - inet_ntop(end)", whatever it was |
| IpRangeEntity.IpRange.Save | src/Entity/IpRange.php:75-80 | the stored row is the entity retitled by preSave; a new range gets an unused id; the save is logged; stored titles stay derived |
| IpRangeEntity.IpRange.Delete | src/Form/IpChangeConfirmForm.php:133 | removes exactly that range and logs the deletion |
| IpRangeEntity.Load | src/Form/IpChangeConfirmForm.php:131 | load() returns null exactly for an id not stored, else a fresh object holding the stored row |
| RangeDeletion.DeleteLoaded | src/Form/IpChangeConfirmForm.php:124-135 | every listed range that loads is deleted, missing ids are skipped, nothing else is removed |
| IpChangeEntity.PreCreate | src/Entity/IpChange.php:60-82 | route organization overwrites; registrars from `notify`, owner and contact from the user, each only when absent |
| IpChangeEntity.Emails | src/Entity/IpChange.php:233-235 | one email per registrar, position by position |
| IpChangeEntity.BccListContents | src/Entity/IpChange.php:233-238 | the Bcc list ends with the operator address; before it come exactly the loadable selected registrars' emails, position by position in reference order |
| IpChangeEntity.EmailsAppend | src/Entity/IpChange.php:233-235 | the emails of two lists are the first list's then the second's |
| IpChangeEntity.EmailsReferencedAppend | src/Entity/IpChange.php:233-235 | the loadable registrars' emails of two lists come the first list's first |
| IpChangeEntity.BccListAppend | src/Entity/IpChange.php:233-238 | the registrars selected first contribute their emails first; the operator address stays last |
| IpChangeEntity.BccListAllLoad | src/Entity/IpChange.php:233-238 | when every selected registrar loads, the Bcc list is their emails in the change's order, then the operator address |
| IpChangeEntity.Outcome | src/Entity/IpChange.php:219-281 | disabled is checked first, then completed, then the transport result decides Sent or SendFailed; each outcome is characterised both ways |
| IpChangeEntity.Applied | src/Entity/IpChange.php:256-270 | the add loop then the delete loop keep the set of stored ranges |
| IpChangeEntity.AppliedKeepsTitles | src/Entity/IpChange.php:257-270 | every range saved by the delta keeps its title derived from its endpoints |
| IpChangeEntity.IpChange.constructor | src/Entity/IpChange.php:543-546 | a new change is unsaved and not completed (status default FALSE), with empty range lists |
| IpChangeEntity.IpChange.SetTitle | src/Entity/IpChange.php:87-97 | getTitle() returns the title set |
| IpChangeEntity.IpChange.SetStatus | src/Entity/IpChange.php:102-112 | isCompleted() returns the status set |
| IpChangeEntity.IpChange.Save | src/Form/IpChangeForm.php:206 | the stored row is the entity's fields; a new change gets an unused id; the save is logged |
| IpChangeEntity.IpChange.Delete | src/Form/IpChangeEntityDeleteForm.php:40 | removes exactly that change and logs the deletion |
| IpChangeEntity.IpChange.Notify | src/Entity/IpChange.php:233-248 | exactly one mail is handed to the transport: to the contact, Bcc the joined list, the body of the ranges stored now; the ranges are unchanged |
| IpChangeEntity.IpChange.GetEmailBody | src/Entity/IpChange.php:117-214 | requires every organization label it reads to load; the body is the rendered, escaped section layout of the change for the ranges stored now |
| IpChangeEntity.IpChange.SendRegistrarEmails | src/Entity/IpChange.php:219-281 | no mail and no range change when disabled or completed; otherwise one mail, then the delta and its saves only when the result is TRUE |
| IpChangeEntity.IpChange.Deliver | src/Entity/IpChange.php:232-278 | the mail precedes the range saves; on failure the ranges are untouched and only the mail is logged |
| IpChangeEntity.DeltaOnSuccess | src/Entity/IpChange.php:249-278 | a TRUE transport result applies the delta with its saves and gives Sent; FALSE changes nothing and gives SendFailed |
| IpChangeEntity.IpChange.SetIpRangeRegistrars | src/Entity/IpChange.php:286-304 | the same delta with no guard, making the current user the owner of each add_ip range; one save per range |
| IpChangeEntity.ApplyDelta | src/Entity/IpChange.php:256-270 | the stored ranges become Applied of the old ones; one save per loadable add_ip entry, then per delete_ip entry |
| IpChangeEntity.MergeRegistrars | src/Entity/IpChange.php:257-262 | the add_ip loop equals AddRegistrars, with the saves in list order |
| IpChangeEntity.MergeInto | src/Entity/IpChange.php:258-261 | one range gets the registrars appended (and the owner when given), retitled, saved |
| IpChangeEntity.DiffFrom | src/Entity/IpChange.php:264-269 | the inner loop run once per registrar leaves exactly one array_diff; one save |
| IpChangeEntity.DiffRegistrars | src/Entity/IpChange.php:263-270 | the delete_ip loop equals RemoveRegistrars, with the saves in list order |
| IpChangeEntity.CommentBlock | src/Entity/IpChange.php:128-138 | the comment text is empty exactly when there is no comment, else the comment escaped once under its heading |
| IpChangeEntity.CollectBcc | src/Entity/IpChange.php:233-236 | the Bcc loop builds BccList |
| IpChangeEntity.HeaderText | src/Entity/IpChange.php:119-125 | the header text of the organization label and the contact, each field escaped once |
| IpChangeEntity.ConfirmList | src/Entity/IpChange.php:141-150 | Confirm is the loadable add_ip ranges that are not in add_new_ip, in add_ip order |
| IpChangeEntity.RangeListText | src/Entity/IpChange.php:152-168 | a range section: the heading and one line per range, the whole escaped, or nothing for an empty list |
| IpChangeEntity.RangeLines | src/Entity/IpChange.php:157-164 | the loop builds one escaped line per range, in list order |
| IpChangeEntity.AppliedKeepsLabels | src/Entity/IpChange.php:256-270 | the delta changes no range's organization, so every label that loaded still loads |
| IpChangeEntity.Load | src/Form/IpChangeConfirmForm.php:118 | a fresh change object holding the stored row, or null for an id not stored |
| RegistrarDelta.AddRegistrars | src/Entity/IpChange.php:257-262 | the add loop keeps the set of stored ranges |
| RegistrarDelta.RemoveRegistrars | src/Entity/IpChange.php:263-270 | the delete loop keeps the set of stored ranges |
| RegistrarDelta.AddRegistrarsAt | src/Entity/IpChange.php:257-262 | a range listed k times ends with the change's registrars appended k times, duplicates kept |
| RegistrarDelta.AddRegistrarsUnion | src/Entity/IpChange.php:257-262 | as a set, an add_ip range ends with the union of its and the change's registrars |
| RegistrarDelta.AddRegistrarsFields | src/Entity/IpChange.php:288-294 | the add delta touches only registrars, title and (when an owner is given) uid |
| RegistrarDelta.AddRegistrarsElsewhere | src/Entity/IpChange.php:257-262 | ranges not in add_ip are unchanged |
| RegistrarDelta.RemoveRegistrarsAt | src/Entity/IpChange.php:263-270 | a delete_ip range ends with exactly one array_diff, however often listed; other fields are kept |
| RegistrarDelta.RemoveRegistrarsDifference | src/Entity/IpChange.php:263-270 | as a set, a delete_ip range keeps exactly the registrars the change does not name |
| RegistrarDelta.RemoveRegistrarsElsewhere | src/Entity/IpChange.php:263-270 | ranges not in delete_ip are unchanged |
| RegistrarDelta.AddRegistrarsKeepsTitles | src/Entity/IpChange.php:261 | titles stay derived from endpoints through the add loop's saves |
| RegistrarDelta.RemoveRegistrarsKeepsTitles | src/Entity/IpChange.php:269 | titles stay derived from endpoints through the delete loop's saves |
| RegistrarDelta.AddRegistrarsKeepsOrganizations | src/Entity/IpChange.php:257-262 | the add loop changes no range's organization |
| RegistrarDelta.RemoveRegistrarsKeepsOrganizations | src/Entity/IpChange.php:263-270 | the delete loop changes no range's organization |
| EmailBody.Entries | src/Entity/IpChange.php:157-164 | one entry per listed range |
| EmailBody.EntriesAt | src/Entity/IpChange.php:157-164 | entry i carries range i's label and its organization label, position by position |
| EmailBody.SectionIds | src/Entity/IpChange.php:141-150 | every range a section lists still loads |
| EmailBody.ConfirmIds | src/Entity/IpChange.php:141-150 | a range is confirmed iff it is in add_ip, loads, and is not in add_new_ip |
| EmailBody.ConfirmAppend | src/Entity/IpChange.php:141-150 | Confirm keeps add_ip order: the ranges referenced first are listed first |
| EmailBody.ConfirmOne | src/Entity/IpChange.php:141-150 | one add_ip reference is confirmed iff it loads and is not in add_new_ip |
| EmailBody.ConfirmAllKept | src/Entity/IpChange.php:141-150 | when every add_ip range loads and none is new, Confirm is add_ip itself |
| EmailBody.RangePart | src/Entity/IpChange.php:152-168 | a range section is present iff its list is non-empty |
| EmailBody.CommentPart | src/Entity/IpChange.php:128-138 | the comment section is present iff the comment is non-empty |
| EmailBody.ListedEntries | src/Entity/IpChange.php:141-204 | each section lists its ranges' labels and organizations, position by position |
| EmailBody.LayoutOrder | src/Entity/IpChange.php:205-213 | header first, then comment, Confirm, Add and Remove, each at most once and in that order |
| EmailBody.LayoutComment | src/Entity/IpChange.php:128-138 | the layout has a comment section iff the comment is non-empty, holding that comment |
| EmailBody.LayoutRanges | src/Entity/IpChange.php:152-204 | the layout has a section of a kind iff its list is non-empty, holding that list |
| EmailBody.RenderLayout | src/Entity/IpChange.php:205-213 | the rendered body is header, comment, Confirm, Add and Remove texts concatenated |
| EmailBody.RangeListShownEscaped | src/Entity/IpChange.php:152-213 | decoded once, a range section is its heading and its lines with every title and organization label still escaped |
| EmailBody.RangeLabelsLoadMeans | src/Entity/IpChange.php:157-198 | the per-list load check holds iff every listed stored range's organization loads |
| EmailBody.RenderSections | src/Entity/IpChange.php:205-213 | the body of a change is its header, comment text, then the Confirm, Add and Remove texts of its listed ranges |
| EmailBody.RenderRangePart | src/Entity/IpChange.php:152-168 | a range section renders as its text, which is empty for an empty list |
| EmailBody.RenderCommentPart | src/Entity/IpChange.php:128-138 | the comment section renders as the comment text, empty without a comment |
| EmailBody.LabelsLoaded | src/Entity/IpChange.php:121-198 | when the labels load, the header and every listed entry carry the organization's own label |
| Html.EscapeAppend | src/Entity/IpChange.php:205-213 | escaping distributes over concatenation |
| Html.EscapePlain | src/Entity/IpChange.php:205-213 | text without special characters is unchanged |
| Html.EscapeSafe | src/Entity/IpChange.php:205-213 | escaped text holds no `<`, `>`, `"` or `'` |
| Html.UnescapeChar | src/Entity/IpChange.php:205-213 | one escaped character decodes back to itself in front of any text |
| Html.UnescapeEscape | src/Entity/IpChange.php:205-213 | decoding undoes escaping |
| Html.EscapedTwice | src/Entity/IpChange.php:157-213 | text escaped twice is still escaped once after one decoding |
| Html.EscapeExample | src/Entity/IpChange.php:157-163 | `AT&T` escapes to `AT&amp;T` |
| Html.EscapedTwiceExample | src/Entity/IpChange.php:157-213 | `AT&T` escaped twice still shows as `AT&amp;T` after one decoding |
| Access.AllowedIfHasPermission | src/IpChangeAccessControlHandler.php:22 | allowed iff the account has the permission |
| Access.AllowedIfHasAny | src/IpChangeAccessControlHandler.php:25 | with OR: allowed iff the account has one of the permissions |
| Access.AllowedIfHasAnyMonotone | src/IpChangeAccessControlHandler.php:24-28 | more permissions never take OR-access away |
| IpChangeAccess.CheckAccess | src/IpChangeAccessControlHandler.php:18-35 | "view" iff "view IP Change"; "update" iff edit or administer; "delete" iff delete or administer; any other operation string neutral |
| IpChangeAccess.CheckCreateAccess | src/IpChangeAccessControlHandler.php:40-42 | create iff "create IP Change" or administer |
| IpChangeAccess.Monotone | src/IpChangeAccessControlHandler.php:18-42 | granting more permissions never takes access away |
| IpChangeAccess.AdministerIsNotView | src/IpChangeAccessControlHandler.php:21-28 | administer grants update, delete and create but not view |
| IpRangeAccess.CheckAccess | src/IpRangeAccessControlHandler.php:18-35 | "view" iff "view IP Range"; "update" iff edit or administer; "delete" iff delete or administer; any other operation string neutral |
| IpRangeAccess.CheckCreateAccess | src/IpRangeAccessControlHandler.php:40-42 | create iff "create IP Range" or administer |
| IpRangeAccess.Monotone | src/IpRangeAccessControlHandler.php:18-42 | granting more permissions never takes access away |
| IpRangeAccess.AdministerIsNotView | src/IpRangeAccessControlHandler.php:21-28 | administer grants update, delete and create but not view |
| IpRangeForm.SaveMessage | src/Form/IpRangeForm.php:27-34 | the "created" message iff the result is SAVED_NEW, with the range's label |
| IpRangeForm.SaveRedirect | src/Form/IpRangeForm.php:36-40 | to the IP manager when the route has an organization, else to the range page |
| IpRangeForm.TitleFromEndpointsOnly | src/Form/IpRangeForm.php:19-20 | the stored title depends only on the endpoints, not on the prior title |
| IpRangeForm.Save | src/Form/IpRangeForm.php:16-41 | title set from endpoints, range saved, message by save result, redirect by route parameter |
| IpChangeDeleteForm.SubmitForm | src/Form/IpChangeEntityDeleteForm.php:20-44 | requires the organization to load; each add_new_ip range that loads is deleted, then the change; with no add_new_ip ranges the ranges are untouched and only the change's deletion is logged; the redirect is its organization's IP manager |
| IpChangeDeleteForm.AbandonKeepsReferenced | src/Form/IpChangeEntityDeleteForm.php:28-40 | ranges not in add_new_ip survive unchanged |
| IpChangeForm.EnabledOptions | src/Form/IpChangeForm.php:35-41 | the options are exactly the enabled registrars, with their labels |
| IpChangeForm.CollectEnabled | src/Form/IpChangeForm.php:35-39 | the loadMultiple loop builds EnabledOptions |
| IpChangeForm.DefaultAction | src/Form/IpChangeForm.php:110-119 | remove iff in delete_ip; add iff in add_ip and not delete_ip; none otherwise |
| IpChangeForm.Rows | src/Form/IpChangeForm.php:96-124 | every row is a listed range not in add_new_ip, with its default action and label |
| IpChangeForm.RowsComplete | src/Form/IpChangeForm.php:96-100 | every listed range not in add_new_ip has a row |
| IpChangeForm.BuildRows | src/Form/IpChangeForm.php:96-128 | the row loop builds Rows |
| IpChangeForm.BuildForm | src/Form/IpChangeForm.php:28-154 | enabled options, admin-only disable_notification, required registrars otherwise, table only when the organization has ranges, delete button hidden when a row exists, cancel by route |
| IpChangeForm.Selected | src/Form/IpChangeForm.php:163-170 | a range is in an action's group iff its table row chose that action |
| IpChangeForm.GroupsDisjoint | src/Form/IpChangeForm.php:165-168 | a range keyed once in the table is never in both groups |
| IpChangeForm.GroupActions | src/Form/IpChangeForm.php:163-170 | the grouping loop builds both groups in table order |
| IpChangeForm.UpsertsKeys | src/Form/IpChangeForm.php:174-186 | the inline saves add exactly their ids to the stored ranges |
| IpChangeForm.UpsertsOutside | src/Form/IpChangeForm.php:174-186 | a stored range the inline saves do not touch keeps its row |
| IpChangeForm.UpsertsAt | src/Form/IpChangeForm.php:174-186 | a range saved once inline holds the row it was saved with |
| IpChangeForm.InlineRows | src/Form/IpChangeForm.php:176-182 | one saved row per inline range |
| IpChangeForm.InlineRowsAt | src/Form/IpChangeForm.php:176-182 | an inline range is saved with its fields, the change's organization and the derived title |
| IpChangeForm.Materialize | src/Form/IpChangeForm.php:176 | the widget's entity object holds the inline range's id and fields |
| IpChangeForm.SaveInlineRange | src/Form/IpChangeForm.php:176-182 | organization and title set, range saved, a new one with an unused id |
| IpChangeForm.SaveInlineRanges | src/Form/IpChangeForm.php:174-186 | every inline range saved in order; known ids kept, new ones unused before; one save each |
| IpChangeForm.NewAddIp | src/Form/IpChangeForm.php:184-192 | add_ip becomes the selected ids then the inline ids, or keeps its value when both are empty |
| IpChangeForm.Save | src/Form/IpChangeForm.php:160-216 | groups written only when non-empty, rebuild iff both groups empty, change saved regardless, redirect to confirm |
| IpChangeConfirmForm.SummaryOf | src/Form/IpChangeConfirmForm.php:76-90 | "will be sent to" iff a selected registrar loads and notification is not disabled; labels joined by ", " |
| IpChangeConfirmForm.CollectLabels | src/Form/IpChangeConfirmForm.php:77-80 | the label loop builds Labels |
| IpChangeConfirmForm.Summarize | src/Form/IpChangeConfirmForm.php:76-90 | the summary step computes SummaryOf |
| IpChangeConfirmForm.BuildForm | src/Form/IpChangeConfirmForm.php:45-109 | the preview is the notification body; Go Back to the edit form; Cancel to the delete form |
| IpChangeConfirmForm.SubmitRanges | src/Form/IpChangeConfirmForm.php:121-135 | after submission the stored ranges are the old ones minus the delete_ip ranges |
| IpChangeConfirmForm.Finish | src/Form/IpChangeConfirmForm.php:122-142 | delta with the user as owner, deletions, export iff configured, save, status; the order of save and status decides the stored status |
| IpChangeConfirmForm.SubmitForm | src/Form/IpChangeConfirmForm.php:114-145 | as written: send, delta, deletions, export, save, then setStatus, so the stored change keeps its old status; the redirect is missing only when the organization does not load |
| IpChangeConfirmForm.Redirect | src/Form/IpChangeConfirmForm.php:144 | a redirect exists iff the organization loads, and it leads to that organization's IP manager |
| IpChangeConfirmForm.SubmitKeepsLabels | src/Form/IpChangeConfirmForm.php:121-135 | a submission changes no surviving range's organization, so the labels a change reads still load |
| IpChangeConfirmForm.SubmitFormCorrected | src/Form/IpChangeConfirmForm.php:140-142 | with setStatus before save, the stored change is completed |
| IpChangeConfirmForm.SendMails | src/Entity/IpChange.php:219-248 | sendRegistrarEmails mails exactly once when past both guards, never otherwise |
| IpChangeConfirmForm.FinishSendsNothing | src/Form/IpChangeConfirmForm.php:122-140 | the later steps of submitForm send no mail |
| IpChangeConfirmForm.SubmitMails | src/Form/IpChangeConfirmForm.php:121-142 | a submission mails once iff sendRegistrarEmails got past its guards |
| IpChangeConfirmForm.ResubmitMailsAgain | src/Form/IpChangeConfirmForm.php:140-142 | as written, a second submission of the reloaded change mails again: two mails in all |
| IpChangeConfirmForm.ResubmitCorrectedMailsOnce | src/Form/IpChangeConfirmForm.php:140-142 | with the status saved, the second submission finds the change completed: one mail in all |
| IpChangeConfirmForm.SubmitTwice | src/Form/IpChangeConfirmForm.php:114-145 | two submissions as written, each reloading the change, hand two mails to the transport |
| IpChangeConfirmForm.SubmitTwiceCorrected | src/Form/IpChangeConfirmForm.php:140-142 | two submissions with the corrected order hand one mail to the transport |
| IpChangeConfirmForm.AppliedAddOnly | src/Entity/IpChange.php:257-262 | one delta appends the change's registrars once per add_ip listing to a range not in delete_ip |
| IpChangeConfirmForm.SentAppendsTwice | src/Form/IpChangeConfirmForm.php:121-122 | after a successful send, an add_ip range gets the change's registrars appended twice |
| IpChangeConfirmForm.FailedSendStillApplies | src/Form/IpChangeConfirmForm.php:121-135 | after SendFailed a listed range still gets the registrars appended and every delete_ip range is deleted |
| IpChangeConfirmForm.SentRegistrarSet | src/Form/IpChangeConfirmForm.php:121-122 | as a set, the doubled delta still gives the union of the range's and the change's registrars |
| IpManagerController.VendorsCell | src/Controller/IpManagerController.php:134-154 | N/A iff no registrar of the range loads; otherwise exactly the loadable registrars' labels, each once |
| IpManagerController.VendorsCellPrefix | src/Controller/IpManagerController.php:135-141 | first occurrence in reference order: the vendors of the first k references lead the cell, in the same order |
| IpManagerController.VendorsCellAllLoad | src/Controller/IpManagerController.php:134-154 | when every registrar loads and the labels differ, the cell is the labels in reference order |
| IpManagerController.Table | src/Controller/IpManagerController.php:95-161 | one row per listed range |
| IpManagerController.AnyLoadsExists | src/Controller/IpManagerController.php:104-109 | the accumulator is set iff some range so far has a registrar that loads |
| IpManagerController.TableRows | src/Controller/IpManagerController.php:95-124 | row i is range i's endpoints, vendors, and the status of the prefix up to i |
| IpManagerController.StickyStatus | src/Controller/IpManagerController.php:104-124 | as written, row i shows Registered iff this range or an earlier one has a registrar that loads |
| IpManagerController.StatusNeverResets | src/Controller/IpManagerController.php:109 | once a row shows Registered, every later row does too |
| IpManagerController.StickyStatusCounterexample | src/Controller/IpManagerController.php:104-153 | a range without registrars after one with a registrar shows Registered next to N/A |
| IpManagerController.TableCorrected | src/Controller/IpManagerController.php:104-124 | with the accumulator reset per range, row i shows Registered iff its own registrars load |
| IpManagerController.CorrectedStatusMatchesVendors | src/Controller/IpManagerController.php:104-153 | corrected, a row shows Registered iff it lists vendors |
| IpManagerController.RecordRegistered | src/Controller/IpManagerController.php:104-108 | the `$registered` loop adds every loaded registrar |
| IpManagerController.VendorLabels | src/Controller/IpManagerController.php:136-141 | the in_array loop builds the de-duplicated labels |
| IpManagerController.BuildRow | src/Controller/IpManagerController.php:96-154 | one iteration: the row, and an accumulator set iff it was set or this range has a loading registrar |
| IpManagerController.Build | src/Controller/IpManagerController.php:56-164 | one row per organization range, in storage order, as Table describes |

## Left out

- Mail transport: the result of `plugin.manager.mail` is a boolean parameter. A mail is recorded by its hook_mail key, recipient, Bcc header and body. The fixed subject and description live in `MailText`.
- EzProxy export: the export service is not part of this model. The export is an `Exported` event, gated by a boolean that stands for the `export_ezproxy` setting.
- IP text parsing and IPv6 display: parsing belongs to the external ipaddress field type. `inet_ntop` is modelled as dotted decimal for IPv4. An IPv6 endpoint carries its display text, and the round-trip lemmas cover IPv4 only.
- Display plumbing is dropped: translation by `t()` (the English source text is kept; its placeholder escaping is modelled in the notification body only), messenger and logger messages, render-array markup, CSS classes, and the `<pre>` card around the preview. Outside the notification body, `t()`'s escaping is not modelled:
  - the range label in the change form's table (`@label`, src/Form/IpChangeForm.php:123);
  - the controller's endpoints (`@ip_start` and `@ip_end`, src/Controller/IpManagerController.php:98 and 101);
  - the confirm summary's registrar labels (`@registrars`, src/Form/IpChangeConfirmForm.php:84-85).

  `t()` escapes each of these once and the browser decodes that once (`Html.UnescapeEscape`), so the raw text these members carry (`IpChangeForm.Rows`, `IpManagerController.Table`, `IpChangeConfirmForm.SummaryOf`) is what the page shows. The controller's vendors cell is the one exception: it is plain `#markup` built by concatenation (src/Controller/IpManagerController.php:143-146), so nothing escapes it. The renderer only XSS-filters it, and that filtering is not modelled.
- IpManagerController.VendorsCell: labels are de-duplicated by exact string equality (`PhpArrays.Dedup`). The `in_array` at src/Controller/IpManagerController.php:138 compares loosely, and PHP 8 compares two numeric strings as numbers. So labels such as "10" and "1e1" share a single entry in the source, but the model keeps both. Modelling PHP's numeric-string rules is outside this model. `VendorsCellAllLoad` and `VendorsCellPrefix` therefore hold for exact equality only.
- IpManagerController.VendorLabels: the same `in_array` loop, with the same exact-equality comparison as `IpManagerController.VendorsCell`.
- IpChangeEntity.IpChange.Notify: the HTML-to-text conversion the mail system applies to the body (hook_mail and the mail plugin) is not part of this model. The model therefore does not state whether the second escaping of the range lines reaches the recipients. The confirm-form preview inserts the body as markup, so a browser decodes it once (`EmailBody.RangeListShownEscaped`).
- IpChangeEntity.IpChange.GetEmailBody: requires every organization label it reads to load (`EmailBody.LabelsLoad`), so a failed run is not modelled. These labels are the change's own organization and that of every stored range it lists, read at src/Entity/IpChange.php:121, 162, 180 and 198. The source fails with a PHP error (`label()` on NULL) before anything is mailed or saved. The same requirement sits on `Notify` and `Deliver`, on `SendRegistrarEmails` past its two guards, on `IpChangeConfirmForm.BuildForm`, and on the runs of `SubmitTwice` and `SubmitTwiceCorrected`.
- Storage.OrgLabel: the empty label for an organization that does not load only keeps the function total. No operation reaches it, because of the requirement above.
- IpChangeForm.BuildForm: requires the change's organization to load, because its id is read at src/Form/IpChangeForm.php:63 and 137. The source fails with a PHP error otherwise.
- IpChangeForm.Save: with inline ranges, requires the change's organization to load, because its id is read at src/Form/IpChangeForm.php:178. The source fails with a PHP error before the first inline range is saved.
- IpChangeDeleteForm.SubmitForm: requires the change's organization to load, because its id is read at src/Form/IpChangeEntityDeleteForm.php:25. The source fails with a PHP error there, before deleting anything.
- IpChangeConfirmForm.SubmitForm: when the organization does not load, the redirect is `None`. That stands for the PHP error at src/Form/IpChangeConfirmForm.php:144, which comes after every other step has taken effect.
- The controller's modified-on and modified-by columns are not modelled, since they are timestamp formatting and an owner display name.
- IpChangeForm.BuildForm: the list of selected registrar labels built at src/Form/IpChangeForm.php:51-53 is never used by the form, so it is not modelled.
- IpChangeForm.BuildForm: the caller states whether the current route is the edit form. On that route the change has an id, which the requires clause states.
- IpChangeForm.Save: the inline-entity-form widget's objects are modelled as values (`InlineRange`) and materialised as fresh objects. Two things are therefore not captured: the widget updating those objects in place, and the `add_new_ip` field, which the widget fills and `save()` does not write.
- IpChangeForm.Save: the redirect is returned even when a rebuild is requested, as the code sets both. The framework ignoring a redirect on rebuild is not modelled.
- Storage.EntityStore.LoadByOrganization: the order in which storage lists an organization's ranges is left unspecified. It is chosen by the model, not stated.
- The confirm form checks `isset($entity->delete_ip)`. That field list object is always set, so the deletion loop always runs.
- The range's `$this->get('ip_addresses')` check in preSave is likewise always true, as the field is required and the object always exists.
- Drupal's own access checks around the handlers (bypass permissions, hooks) are not modelled, nor are route access requirements.
- Settings forms, git-based export preparation, the registrar admin UI and list builders are not part of this model.
- Concurrent submission is not modelled: the code takes no lock.

## Findings

| source | as written | input that shows it | evidently intended | confidence | as-written member | corrected member |
|---|---|---|---|---|---|---|
| src/Form/IpChangeConfirmForm.php:140-142 | `setStatus(TRUE)` runs after the last `save()` and nothing saves the entity again, so the stored change is never marked completed | a change with notification enabled and status FALSE, confirmed twice (each submission loads the change from storage): the completed guard never fires and the registrars are mailed twice | mark the change completed before saving it, so that a second submission is refused by the completed guard | not executed | IpChangeConfirmForm.SubmitForm, IpChangeConfirmForm.ResubmitMailsAgain, IpChangeConfirmForm.SubmitTwice | IpChangeConfirmForm.SubmitFormCorrected, IpChangeConfirmForm.ResubmitCorrectedMailsOnce, IpChangeConfirmForm.SubmitTwiceCorrected |
| src/Controller/IpManagerController.php:104-124 | `$registered` is never reset between ranges, so once one range has a registrar every later row shows "Registered" | ranges 1 (one loading registrar) and 2 (no registrars) of one organization, listed in that order: row 2 shows Registered next to N/A | the status of each row reflects that range's own registrars | not executed | IpManagerController.Table, IpManagerController.StickyStatusCounterexample | IpManagerController.TableCorrected, IpManagerController.CorrectedStatusMatchesVendors |
