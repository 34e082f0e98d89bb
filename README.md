# Editor Enhancements, modelled in Dafny

Tenebrous Editor Enhancements is a set of Unity editor add-ons. It covers:

- a project pane that shows extension badges, tooltips and a hover preview;
- a hierarchy pane that shows component icons and a culled-layer marker;
- a drag-and-drop popup that assigns a dragged object to compatible fields;
- a registry of enhancements with an "Enhancements" preference tab;
- a small store of long preference strings.

Beneath the immediate-mode GUI there are small exact rules. This project states those rules in Dafny and proves what they promise. Unity's host objects become plain data:

- `EditorPrefs` is a map from key to typed value, held in a `PrefStore` object that the methods update.
- An asset or component is a `UObject` value. Its `Kind` says which Unity class it is. It carries the set of types it is an instance of.
- A field is a `FieldInfo` record with the reflection flags the code tests.
- A directory listing is a `seq<string>`.
- Clocks are integer milliseconds, passed in as parameters.
- Screen geometry uses integer coordinates.

One module per C# file:

| module | file | flavour |
|---|---|---|
| `Common` | `Common.cs` | chunked long prefs (imperative, loops over a `PrefStore`), memoised base path (a class), path strings (functions) |
| `ProjectWindow` | `ProjectWindow.cs` | `ProjectPane` class: tooltip and file-count caches, hover state machine, badge rule, settings |
| `AssetInfo` | `AssetInfo.cs` | preview-info text builders (functions), renderer search over the transform tree |
| `TeneDropTarget` | `TeneDropTarget.cs` | field rules (functions); the popup and its components (classes whose methods assign fields) |
| `Enhancements` | `Main.cs` | registration, pref keys, first-match lookup, the preference tab as a `Registry` class with a log of calls made on the enhancements |
| `TeneEnhPreviewWindow` | `TeneEnhPreviewWindow.cs` | resolution and eligibility (functions); the preview window and its host (classes) |
| `ProjectWindowPreview` | `ProjectWindowPreview.cs` | the pane's own preview window (class) and its info text (functions) |
| `TeneHierarchyWindow` | `HierarchyWindow.cs` | layer-mask test, underline, icon strip (a method with a loop), enabled getter and setter |

There are also shared modules:

- `Wrappers`: `Option`, and `Outcome`, a result that is either a value or a thrown exception.
- `Text`: decimal rendering, zero padding, `Replace(x, "")`, prefix and suffix tests.
- `FilePaths`: the `System.IO.Path` calls used, for '/'-separated asset paths.
- `EditorPrefs`: the preference store.
- `UnityObjects`: the host object shapes and the asset database lookup.

Where the C# code would throw, the model returns `Thrown(NullReference)` or `Thrown(ArgumentOutOfRange)` instead of excluding the input. Examples:

- a null asset reaching `GetPreviewInfo`;
- an `AudioSource` without a clip;
- an asset directory shorter than `"Assets"`;
- an unset drop target.

## Model

Source paths are relative to the repository root.

| member | source | states |
|---|---|---|
| Common.ChunkKeyInjective | EditorEnhancements/Editor/Common.cs:135 | the piece keys `name0`, `name1`, … of one name are pairwise distinct |
| Common.Chunks | EditorEnhancements/Editor/Common.cs:146-152 | a value splits into at least one piece (an empty value gives one empty piece) and the pieces concatenate back to the value |
| Common.ChunkSizes | EditorEnhancements/Editor/Common.cs:146-152 | every piece but the last is exactly 1000 characters, the last at most 1000, and the empty value gives the single piece `""` |
| Common.FirstAbsent | EditorEnhancements/Editor/Common.cs:154-155 | the index where the scan for stale pieces stops: every piece key below it is present, the key at it is absent |
| Common.FirstAbsentAgree | EditorEnhancements/Editor/Common.cs:154-155 | two stores that agree on the piece keys from index i on stop the scan at the same index |
| Common.ReadLaidOut | EditorEnhancements/Editor/Common.cs:130-139 | a store holding pieces i.. in consecutive keys, followed by an absent key, reads back as their concatenation |
| Common.GetLongPref | EditorEnhancements/Editor/Common.cs:130-139 | the loop returns the concatenation of the pieces from index 0 up to the first missing key, and `""` when `name0` is absent |
| Common.SetLongPref | EditorEnhancements/Editor/Common.cs:141-156 | afterwards piece j holds the j-th 1000-character slice; the stale keys from the piece count up to the first absent one are deleted; no other key changes; reading back with the long-pref reader returns exactly the value written |
| Common.WritePieces | EditorEnhancements/Editor/Common.cs:143-152 | the first loop writes exactly the pieces of the value, in consecutive keys, and touches no key outside them |
| Common.WriteChunk | EditorEnhancements/Editor/Common.cs:148-149 | one step of the write loop stores piece `index` and changes nothing else |
| Common.DeleteStalePieces | EditorEnhancements/Editor/Common.cs:154-155 | the delete loop removes exactly the consecutive keys from the piece count to the first absent one and keeps the pieces just written |
| Common.AgreeOutsideChunks | EditorEnhancements/Editor/Common.cs:146-155 | stores that differ only on the first n piece keys agree on every piece key from n on |
| Common.Normalized | EditorEnhancements/Editor/Common.cs:42 | replacing the alternate separator keeps the length, leaves no alternate separator and keeps every other character |
| Common.ProjectPathOf | EditorEnhancements/Editor/Common.cs:48-55 | the project path is the base path less its last 7 characters, a prefix of it; a base path shorter than 7 throws |
| Common.ProjectPathOfAssetsFolder | EditorEnhancements/Editor/Common.cs:48-55 | for a data path `<project>/Assets` the project path is exactly `<project>` |
| Common.TempRecompilationListOf | EditorEnhancements/Editor/Common.cs:57-67 | the list path is the project path, the separator, `Temp`, the separator, then `tene_recompile.txt` |
| Common.PathCache.BasePath | EditorEnhancements/Editor/Common.cs:37-46 | computed on the first call and cached, later calls return the cached value unchanged; holds no alternate separator |
| Common.PathCache.ProjectPath | EditorEnhancements/Editor/Common.cs:48-55 | equals the project path of the cached base path; on the first call the cache is filled with the normalised `dataPath`, later calls keep it |
| Common.PathCache.TempRecompilationList | EditorEnhancements/Editor/Common.cs:57-67 | propagates the project path's exception, otherwise appends the `Temp` file name to it; on the first call the cache is filled with the normalised `dataPath` |
| EditorPrefs.PrefStore.SetBool | EditorEnhancements/Editor/Main.cs:104 | the store gains exactly the bool entry, and any later read of that key returns it |
| EditorPrefs.PrefStore.SetInt | EditorEnhancements/Editor/Main.cs:114 | the store gains exactly the int entry, and any later read of that key returns it |
| EditorPrefs.PrefStore.SetString | EditorEnhancements/Editor/Common.cs:149 | the store gains exactly the string entry, which reads back |
| EditorPrefs.PrefStore.DeleteKey | EditorEnhancements/Editor/Common.cs:155 | exactly that key is removed |
| Text.NatToStringValue | EditorEnhancements/Editor/AssetInfo.cs:85-86 | the decimal text of a number reads back as that number |
| Text.NatToStringInjective | EditorEnhancements/Editor/AssetInfo.cs:93 | different counts give different decimal texts |
| Text.ZeroPaddedValue | EditorEnhancements/Editor/AssetInfo.cs:85-86 | `ToString("00")`/`("000")` of a number below the width's power of ten has exactly that width and reads back as the number |
| Text.RemoveAllWithoutMatch | EditorEnhancements/Editor/AssetInfo.cs:37 | `Replace(pat, "")` leaves a string without the pattern unchanged |
| Text.RemoveAllLeading | EditorEnhancements/Editor/AssetInfo.cs:37 | `Replace(pat, "")` drops a leading occurrence of the pattern |
| FilePaths.LastIndexOfIsLast | EditorEnhancements/Editor/ProjectWindow.cs:144-153 | the separator index used to split paths is the last occurrence |
| FilePaths.DirectoryAndFileName | EditorEnhancements/Editor/ProjectWindow.cs:276-277 | a path with a separator is its directory, a separator and its file name |
| FilePaths.NameAndExtension | EditorEnhancements/Editor/ProjectWindow.cs:144-145 | a file name is its name without extension followed by its extension |
| FilePaths.ExtensionShape | EditorEnhancements/Editor/ProjectWindow.cs:144 | an extension is empty or starts with '.' and contains no further '.' or separator |
| ProjectWindow.StripLeadingNewlines | EditorEnhancements/Editor/ProjectWindow.cs:233-234 | the result is a suffix of the text that does not start with a line break, and only line breaks were removed |
| ProjectWindow.FileCountKey | EditorEnhancements/Editor/ProjectWindow.cs:251 | the file-count cache key starts with the directory and ends with '/' and the file name |
| ProjectWindow.FileCountKeyLayout | EditorEnhancements/Editor/ProjectWindow.cs:251 | the key is exactly the directory, one '/', then the file name |
| ProjectWindow.FileCountKeyInjective | EditorEnhancements/Editor/ProjectWindow.cs:251 | for file names without '/', one key comes from one directory and one name |
| ProjectWindow.KeysOfExactly | EditorEnhancements/Editor/ProjectWindow.cs:373-386 | the cache keys of a list of assets are exactly the keys of its members |
| ProjectWindow.KeysOfAppend | EditorEnhancements/Editor/ProjectWindow.cs:373-386 | the keys of a concatenation are the union of the keys of the parts |
| ProjectWindow.AssetPaths | EditorEnhancements/Editor/ProjectWindow.cs:279 | the tooltip keys cleared for a list of assets are exactly its members |
| ProjectWindow.Clamp | EditorEnhancements/Editor/ProjectWindow.cs:114 | `Mathf.Clamp` stays within a non-empty range and keeps values already inside it |
| ProjectWindow.PreviewPosition | EditorEnhancements/Editor/ProjectWindow.cs:107-114 | the preview is 200 by 200, 210 left of the pane, or right of the pane when that would be negative, and its y is 90 above the mouse, clamped between 0 and the screen height minus 250 |
| ProjectWindow.ProjectPane.constructor | EditorEnhancements/Editor/ProjectWindow.cs:51-78 | caches and hover state start empty, and the two settings are read with default true |
| ProjectWindow.ProjectPane.ReadSettings | EditorEnhancements/Editor/ProjectWindow.cs:348-356 | both settings are read from their keys with default true |
| ProjectWindow.ProjectPane.SaveSettings | EditorEnhancements/Editor/ProjectWindow.cs:358-368 | as written: "show all" is stored, the hover-preview key is left exactly as it was, and the colour-map string is stored as a long pref; no key but "show all" and the colour map's pieces changes |
| ProjectWindow.ProjectPane.SaveSettingsIntended | EditorEnhancements/Editor/ProjectWindow.cs:358-368 | corrected: both settings read back as the values held, and the colour-map string reads back; no key but the two settings and the colour map's pieces changes |
| ProjectWindow.ColorMapFrame | EditorEnhancements/Editor/ProjectWindow.cs:358-368 | setting keys written before the colour map do not move where its stale pieces end, so only the settings and the colour map's pieces differ |
| ProjectWindow.SettingsKeptBy | EditorEnhancements/Editor/ProjectWindow.cs:360-367 | writing the colour-map pieces does not disturb either setting key |
| ProjectWindow.ProjectPane.DrawPrefs | EditorEnhancements/Editor/ProjectWindow.cs:290-346 | the toggles set both settings; the prefs are saved only when a setting changed, and then only "show all" and the colour map's pieces change |
| ProjectWindow.ProjectPane.GetTooltip | EditorEnhancements/Editor/ProjectWindow.cs:223-243 | a cached path returns its stored text with the cache unchanged; otherwise the asset's preview info, stripped of leading line breaks, is stored and returned; a missing asset throws; the text never starts with a line break |
| ProjectWindow.ProjectPane.GetFileCount | EditorEnhancements/Editor/ProjectWindow.cs:245-272 | a directory shorter than 6 throws; a cached count is returned as is; otherwise the count is 2 iff the listing has a name that is neither the file itself nor a `.meta`, else 1, and it is cached under directory/filename |
| ProjectWindow.ProjectPane.Update | EditorEnhancements/Editor/ProjectWindow.cs:81-139 | with hover preview off, or both GUIDs null, nothing changes (GUIDs, throttle, window and its fields); a new hovered GUID is copied to the last one, and a previewable asset is shown in the window with its per-asset state reset, its text and the position from the mouse recorded by `Draw`; the same GUID increments the throttle, which past 20 resets the hovered GUID and itself to 0, so it stays within 0..20 |
| ProjectWindow.ProjectPane.Draw | EditorEnhancements/Editor/ProjectWindow.cs:141-221 | an unknown GUID draws nothing; the hovered GUID changes only when the mouse is in the row; a badge needs a listed asset, and a listed asset gets its badge exactly under the badge rule; the caches change only at the row's tooltip and file-count keys; the mouse is recorded on screen exactly for a listed row whose tooltip loaded |
| ProjectWindow.ProjectPane.LabelTooltip | EditorEnhancements/Editor/ProjectWindow.cs:155-157 | a cached tooltip is kept; otherwise the stripped preview info is cached under the path and nothing else, unless loading it threw |
| ProjectWindow.ProjectPane.Badge | EditorEnhancements/Editor/ProjectWindow.cs:171-200 | with show-all a badge is always drawn and the file-count cache is untouched; otherwise only when the file count exceeds 1, with the dot prefix in list mode, and only the row's count is cached |
| ProjectWindow.ProjectPane.ClearCache | EditorEnhancements/Editor/ProjectWindow.cs:274-280 | removes exactly the file-count entry of directory/name-without-extension and the tooltip entry of the path |
| ProjectWindow.ProjectPane.ClearCaches | EditorEnhancements/Editor/ProjectWindow.cs:375-376 | clearing a list of assets removes exactly their entries from both caches |
| ProjectWindow.ProjectPane.OnPostprocessAllAssets | EditorEnhancements/Editor/ProjectWindow.cs:373-386 | every imported, deleted, moved and moved-from asset is cleared from both caches and no other entry changes |
| AssetInfo.TypeDisplayName | EditorEnhancements/Editor/AssetInfo.cs:37 | removing `UnityEngine.` never lengthens the type name |
| AssetInfo.TypeDisplayNameOfEngineType | EditorEnhancements/Editor/AssetInfo.cs:37 | an engine type is shown by its short name |
| AssetInfo.WithTypeSuffix | EditorEnhancements/Editor/AssetInfo.cs:68-72 | an empty type name leaves the info alone; a non-empty one becomes the whole text after empty info, else is appended as ` (T)` |
| AssetInfo.PreviewInfo | EditorEnhancements/Editor/AssetInfo.cs:34-75 | a null object or an `AudioSource` without a clip throws a null reference, and nothing else does |
| AssetInfo.MonoScriptHasNoSuffix | EditorEnhancements/Editor/AssetInfo.cs:53-57 | a script's text is its class text with no type suffix |
| AssetInfo.MonoBehaviourBeforeBehaviour | EditorEnhancements/Editor/AssetInfo.cs:60-66 | a `MonoBehaviour` is a `Behaviour` yet takes the earlier branch and is suffixed with its base type |
| AssetInfo.OwnTypeNameSuffix | EditorEnhancements/Editor/AssetInfo.cs:34-75 | every other object's text is some info with its own type name as suffix |
| AssetInfo.DurationText | EditorEnhancements/Editor/AssetInfo.cs:81-86 | `[H:]mm:ss.fff`: the hours and their ':' appear exactly when hours are non-zero; ':' and '.' sit at their fixed places from the end |
| AssetInfo.DurationTextRoundTrip | EditorEnhancements/Editor/AssetInfo.cs:81-86 | reading the hours, two-digit minutes, two-digit seconds and three-digit milliseconds back gives the clip length modulo one day |
| AssetInfo.ReadFields | EditorEnhancements/Editor/AssetInfo.cs:85-86 | the fixed-width fields sit at fixed offsets from the end of the text |
| AssetInfo.DayDecomposition | EditorEnhancements/Editor/AssetInfo.cs:81 | hours, minutes, seconds and milliseconds recompose the length modulo one day |
| AssetInfo.ChannelText | EditorEnhancements/Editor/AssetInfo.cs:88-93 | "Mono" exactly for 1 channel, "Stereo" exactly for 2, otherwise the count then " channels"; the wording ends with a line break |
| AssetInfo.ChannelTextInjective | EditorEnhancements/Editor/AssetInfo.cs:88-93 | different channel counts give different wordings |
| AssetInfo.AudioClipInfo | EditorEnhancements/Editor/AssetInfo.cs:77-96 | the text is the duration, a space, then the channel wording, and nothing else |
| AssetInfo.Texture2DInfo | EditorEnhancements/Editor/AssetInfo.cs:98-106 | the format, a line break, then width, `x`, height |
| AssetInfo.Texture2DInfoInjective | EditorEnhancements/Editor/AssetInfo.cs:98-106 | for one-line format names, the text determines the format, width and height |
| AssetInfo.TextureLines | EditorEnhancements/Editor/AssetInfo.cs:114-116 | empty exactly when no dependency is a texture; otherwise starts with a `\n - ` line |
| AssetInfo.TextureLinesAreConcat | EditorEnhancements/Editor/AssetInfo.cs:114-116 | the lines are each dependency's line in order: `\n - ` and the name for a texture, nothing for anything else |
| AssetInfo.TextureLinesAppend | EditorEnhancements/Editor/AssetInfo.cs:114-116 | the dependency lines of two lists are the lines of each in order |
| AssetInfo.MaterialInfo | EditorEnhancements/Editor/AssetInfo.cs:108-119 | the shader name followed by exactly the texture lines; just the name exactly when no dependency is a texture |
| AssetInfo.MeshInfo | EditorEnhancements/Editor/AssetInfo.cs:132-140 | the vertex count and " verts ", the triangle index count and " tris", a line break, then the mesh name |
| AssetInfo.MeshInfoInjective | EditorEnhancements/Editor/AssetInfo.cs:132-140 | the text determines the vertex count, triangle index count and mesh name |
| AssetInfo.MeshFilterInfo | EditorEnhancements/Editor/AssetInfo.cs:122-130 | empty without a shared mesh, otherwise exactly the shared mesh's text |
| AssetInfo.MonoScriptInfo | EditorEnhancements/Editor/AssetInfo.cs:151-162 | "(multiple classes)" exactly when the script has no single class; otherwise the class name, a line break and the base type's display name in parentheses |
| AssetInfo.GameObjectInfo | EditorEnhancements/Editor/AssetInfo.cs:184-193 | the prefab parent's asset path when the prefab parent is a game object, empty otherwise |
| AssetInfo.CameraInfo | EditorEnhancements/Editor/AssetInfo.cs:223-233 | "Orthographic" exactly for orthographic cameras, "Perspective" exactly otherwise |
| AssetInfo.BehaviourInfo | EditorEnhancements/Editor/AssetInfo.cs:198-212 | throws exactly for an audio source without a clip; a light gives its type, a camera its projection, an audio source its clip's name, a reverb filter its preset; a MonoBehaviour or other Behaviour gives empty info |
| AssetInfo.Subtree | EditorEnhancements/Editor/AssetInfo.cs:255-265 | the flattened transform tree starts with the object itself |
| AssetInfo.SomeRendererAppend | EditorEnhancements/Editor/AssetInfo.cs:255-265 | a renderer is in a concatenation iff it is in one of the parts |
| AssetInfo.HasAnyRenderersInSubtree | EditorEnhancements/Editor/AssetInfo.cs:255-265 | the recursive search is true iff the object or a descendant has a renderer |
| AssetInfo.AnyChildInSubtrees | EditorEnhancements/Editor/AssetInfo.cs:260-262 | the loop over children is true iff some node of their subtrees has a renderer |
| ProjectWindowPreview.PreviewInfo | EditorEnhancements/Editor/ProjectWindowPreview.cs:108-115 | only audio clips and 2D textures have info; any other object, or none, gives `""` |
| ProjectWindowPreview.AudioInfo | EditorEnhancements/Editor/ProjectWindowPreview.cs:117-135 | the duration, a line break, then the channel wording, and nothing else |
| ProjectWindowPreview.AudioInfoAgainstTooltip | EditorEnhancements/Editor/ProjectWindowPreview.cs:125 | the pane's audio text equals the tooltip's except for a line break where the tooltip has a space |
| ProjectWindowPreview.AudioInfoDuration | EditorEnhancements/Editor/ProjectWindowPreview.cs:121-125 | the first line reads back as the clip length modulo one day |
| ProjectWindowPreview.TextureInfo | EditorEnhancements/Editor/ProjectWindowPreview.cs:137-145 | the format, a line break, then width, ` x `, height; two characters longer than the tooltip's `WxH` form |
| ProjectWindowPreview.TextureInfoInjective | EditorEnhancements/Editor/ProjectWindowPreview.cs:137-145 | for one-line format names, the text determines the format, width and height |
| ProjectWindowPreview.WindowText | EditorEnhancements/Editor/ProjectWindowPreview.cs:47 | the preview info, then a line break and the full type name, and nothing else |
| ProjectWindowPreview.PreviewWindow.constructor | EditorEnhancements/Editor/ProjectWindowPreview.cs:10-19 | a fresh window has no asset, no texture and empty info |
| ProjectWindowPreview.PreviewWindow.SetGUID | EditorEnhancements/Editor/ProjectWindowPreview.cs:21-51 | sets the GUID, its path and asset; resets the no-preview flag, alpha and info; a 2D texture is its own preview with alpha and widens the window 200 leftwards; info is the window text; the start time is now; a missing asset throws |
| ProjectWindowPreview.PreviewWindow.Update | EditorEnhancements/Editor/ProjectWindowPreview.cs:53-66 | polls only without a texture and with a GUID and an asset; sets no-preview only after more than 3000 ms without a texture |
| TeneEnhPreviewWindow.Follow | EditorEnhancements/Editor/TeneEnhPreviewWindow.cs:53-62 | a mesh filter becomes its shared mesh (none without one), an audio source its clip (none without one), a game object its prefab parent when that is a game object and itself otherwise; nothing else changes |
| TeneEnhPreviewWindow.Resolve | EditorEnhancements/Editor/TeneEnhPreviewWindow.cs:45-63 | a GUID wins over a path, which wins over the asset passed in, and the result is then followed |
| TeneEnhPreviewWindow.GUIDOverridesAsset | EditorEnhancements/Editor/TeneEnhPreviewWindow.cs:47-51 | with a GUID the asset passed in does not matter |
| TeneEnhPreviewWindow.CanShowPreviewFor | EditorEnhancements/Editor/TeneEnhPreviewWindow.cs:66-87 | a camera always qualifies; a game object iff it has a renderer; anything else iff it exists, is not a plain object and is no script, behaviour, collider or component |
| TeneEnhPreviewWindow.PreviewWindow.SetPosition | EditorEnhancements/Editor/TeneEnhPreviewWindow.cs:89-104 | anchored right iff 210 left of the anchor is negative; then x is the anchor's right edge, otherwise the window ends 10 left of the anchor; y is clamped |
| TeneEnhPreviewWindow.PreviewWindow.SetPreview | EditorEnhancements/Editor/TeneEnhPreviewWindow.cs:106-141 | a null resolved asset throws at the title, before any field changes; otherwise it shows the resolved asset, clears no-preview, sets the info to the asset's preview info and the start time to now; a 2D texture is its own preview, drawn with alpha, and widens the window by 200 toward its free side; anything else shows the host's preview |
| TeneEnhPreviewWindow.PreviewWindow.Update | EditorEnhancements/Editor/TeneEnhPreviewWindow.cs:143-156 | polls only without a texture and with an asset; sets no-preview only after more than 3000 ms |
| TeneEnhPreviewWindow.PreviewHost.Update | EditorEnhancements/Editor/TeneEnhPreviewWindow.cs:23-43 | with neither GUID nor asset, or nothing previewable, the window is closed and cleared; otherwise a window exists, anchored and positioned, showing the resolved asset with its text, texture, alpha flag and a restarted clock, a 2D texture widening it by 200 away from the pane |
| TeneDropTarget.FieldsForExactly | EditorEnhancements/Editor/TeneDropTarget.cs:195-198 | the fields listed are exactly the instance fields, without the private fields of base classes |
| TeneDropTarget.IsCompatibleField | EditorEnhancements/Editor/TeneDropTarget.cs:200-215 | a field whose type does not fit, a static field or a `[NonSerialized]` one is never compatible; otherwise it is compatible iff `[SerializeField]` or public |
| TeneDropTarget.SerializeFieldAdmitsNonPublic | EditorEnhancements/Editor/TeneDropTarget.cs:211-212 | `[SerializeField]` admits a fitting, non-static, serialized field whatever its visibility |
| TeneDropTarget.NonSerializedWins | EditorEnhancements/Editor/TeneDropTarget.cs:208-212 | `[NonSerialized]` rejects a field even when it is public and `[SerializeField]` |
| TeneDropTarget.NoneCompatible | EditorEnhancements/Editor/TeneDropTarget.cs:126-162 | a component offers no item iff none of its listed fields is compatible |
| TeneDropTarget.OnlyCompatibleFieldsChange | EditorEnhancements/Editor/TeneDropTarget.cs:140-158 | the popup changes only compatible fields, and without a change the values stay as they were |
| TeneDropTarget.Component.Offer | EditorEnhancements/Editor/TeneDropTarget.cs:128-160 | counts the compatible fields, assigns each one the picked value, and reports whether any value changed |
| TeneDropTarget.NothingOffered | EditorEnhancements/Editor/TeneDropTarget.cs:121-168 | the item total over the components is zero iff no component has a compatible field |
| TeneDropTarget.OfferAll | EditorEnhancements/Editor/TeneDropTarget.cs:126-162 | a null component throws, with the components before it updated, those from it on untouched, and the changed flag set exactly when one of the earlier components changed a field; otherwise the total is the sum over the components, each is updated by its own picks, and the changed flag is set exactly when some field took a new value |
| TeneDropTarget.DropTarget.OnGUI | EditorEnhancements/Editor/TeneDropTarget.cs:113-192 | nothing happens while nothing is dragged (no flag and no component changes); only mouse movement records the mouse-over; an unset target throws; the message "No suitable variables for T" appears iff no item is offered; a field that took a new value closes the popup and records the time, otherwise closing and its time are unchanged; a missing component throws after the components before it were updated, closing the popup just as far as they changed a field |
| TeneDropTarget.DropHost.Update | EditorEnhancements/Editor/TeneDropTarget.cs:47-62 | creates the window once and resets its flags; an unset target throws, leaving the target and position as they were; otherwise the target is set and the window sits at the anchor, at the mouse's height |
| TeneDropTarget.DropHost.Hide | EditorEnhancements/Editor/TeneDropTarget.cs:64-72 | the window is gone afterwards |
| TeneDropTarget.DropHost.Tick | EditorEnhancements/Editor/TeneDropTarget.cs:102-111 | a closing window hides only after more than 500 ms; otherwise it hides iff nothing is dragged |
| Enhancements.RegisteredExactly | EditorEnhancements/Editor/Main.cs:21-28 | the list holds exactly the concrete, non-abstract subclasses of `EditorEnhancement` |
| Enhancements.BaseClassNotRegistered | EditorEnhancements/Editor/Main.cs:24 | the base class itself is never registered |
| Enhancements.Register | EditorEnhancements/Editor/Main.cs:16-28 | the registration loop builds exactly that list, in declaration order |
| Enhancements.KeyShape | EditorEnhancements/Editor/Main.cs:103 | a pref key is `EE_`, the prefix, `_`, then the name |
| Enhancements.PrefixInjective | EditorEnhancements/Editor/Main.cs:103 | for one name, two prefixes give one key only when they are equal |
| Enhancements.KeyInjective | EditorEnhancements/Editor/Main.cs:103 | for one enhancement, different names give different keys |
| Enhancements.EnabledNotExpanded | EditorEnhancements/Editor/Main.cs:56-70 | an Enabled key is never an Expanded key, whatever the prefixes |
| Enhancements.SetPrefBool | EditorEnhancements/Editor/Main.cs:104 | writes exactly that enhancement's key |
| Enhancements.SetPrefInt | EditorEnhancements/Editor/Main.cs:114 | writes exactly that enhancement's key |
| Enhancements.BoolRoundTrip | EditorEnhancements/Editor/Main.cs:101-105 | a bool set reads back, and other names of the same enhancement are unaffected |
| Enhancements.IntRoundTrip | EditorEnhancements/Editor/Main.cs:111-115 | an int set reads back, and other names of the same enhancement are unaffected |
| Enhancements.UnsetReadsDefault | EditorEnhancements/Editor/Main.cs:101-115 | an absent key reads as the default |
| Enhancements.StartupCallsExactly | EditorEnhancements/Editor/Main.cs:33-35 | start-up calls `OnEnable` on entry i, in list order, iff its start-up key reads true (default true) |
| Enhancements.EnableAtStartup | EditorEnhancements/Editor/Main.cs:33-35 | the start-up loop makes exactly those calls |
| Enhancements.StartupIgnoresToggle | EditorEnhancements/Editor/Main.cs:33-56 | as written: switching an entry off in the tab does not change which entries start-up enables |
| Enhancements.StartupEnablesSwitchedOff | EditorEnhancements/Editor/Main.cs:33-56 | as written: an entry switched off in the tab is still enabled at start-up |
| Enhancements.IntendedStartupFollowsToggle | EditorEnhancements/Editor/Main.cs:33-56 | corrected: with the `EE_` key, start-up enables an entry iff its tab toggle is on |
| Enhancements.Registry.constructor | EditorEnhancements/Editor/Main.cs:14-36 | as written: registers the list and records the start-up calls read from `<prefix>_Enabled` |
| Enhancements.Registry.Intended | EditorEnhancements/Editor/Main.cs:14-36 | corrected: the same, reading `EE_<prefix>_Enabled` |
| Enhancements.Registry.Enhancement | EditorEnhancements/Editor/Main.cs:38-45 | none iff no entry is a T; otherwise the first entry that is a T |
| Enhancements.OtherExpandedKeys | EditorEnhancements/Editor/Main.cs:75-77 | exactly the Expanded keys of the other entries |
| Enhancements.ToggleCalls | EditorEnhancements/Editor/Main.cs:60-66 | `OnEnable` only on false to true, `OnDisable` only on true to false, nothing when unchanged |
| Enhancements.RowCalls | EditorEnhancements/Editor/Main.cs:56-92 | a row only calls its own entry; enable and disable calls need a click on the toggle; its preferences are drawn iff it was expanded |
| Enhancements.Registry.CollapseOthers | EditorEnhancements/Editor/Main.cs:74-77 | every other entry reads as collapsed afterwards, and no key outside their Expanded keys changes |
| Enhancements.Registry.Toggle | EditorEnhancements/Editor/Main.cs:56-66 | returns the stored enabled flag, stores it flipped when clicked, and logs the transition calls |
| Enhancements.Registry.Fold | EditorEnhancements/Editor/Main.cs:68-78 | expanding an entry leaves it the only one expanded; collapsing or not clicking touches no other entry; at most one expanded entry stays so |
| Enhancements.Registry.DrawRow | EditorEnhancements/Editor/Main.cs:54-94 | one row: the stored flags before the click, the row's calls, the enabled flag flipped by a click, the new expanded flag, no other prefix's enabled flag changed, and no key written but the row's own and the other entries' expanded keys |
| Enhancements.Registry.DrawAll | EditorEnhancements/Editor/Main.cs:48-96 | the tab appends calls; every clicked toggle calls `OnEnable` or `OnDisable` and only clicked toggles do; with distinct prefixes each enabled flag is flipped exactly when its toggle was clicked; at most one entry stays expanded; no key outside the entries' enabled and expanded keys changes |
| Enhancements.ExpandedAlone | EditorEnhancements/Editor/Main.cs:74-77 | once every other Expanded key is false, at most one entry is expanded |
| Enhancements.EnabledWriteKeepsFolds | EditorEnhancements/Editor/Main.cs:58 | writing an Enabled key changes no entry's expansion |
| Enhancements.FoldingKeepsAtMostOne | EditorEnhancements/Editor/Main.cs:70-78 | collapsing one entry keeps at most one expanded |
| Enhancements.UnchangedExpansion | EditorEnhancements/Editor/Main.cs:70 | rewriting an entry's Expanded key with its own value keeps at most one expanded |
| TeneHierarchyWindow.LayerRendered | EditorEnhancements/Editor/HierarchyWindow.cs:73 | `1 << layer` tests bit `layer mod 32` of the mask, as the C# shift does |
| TeneHierarchyWindow.LayerBit | EditorEnhancements/Editor/HierarchyWindow.cs:73 | the shifted-bit mask test agrees with the bit predicate |
| TeneHierarchyWindow.Culled | EditorEnhancements/Editor/HierarchyWindow.cs:73 | a row is culled iff a scene camera is known and its mask lacks the layer's bit |
| TeneHierarchyWindow.EverythingOrNothing | EditorEnhancements/Editor/HierarchyWindow.cs:73 | an all-ones mask culls nothing, an empty mask culls every layer |
| TeneHierarchyWindow.LayerWraps | EditorEnhancements/Editor/HierarchyWindow.cs:73 | layers 32 apart are culled alike |
| TeneHierarchyWindow.Underline | EditorEnhancements/Editor/HierarchyWindow.cs:79 | one '_' per character of the name |
| TeneHierarchyWindow.GetEnabled | EditorEnhancements/Editor/HierarchyWindow.cs:145-156 | false exactly for a component whose bool `enabled` property is false; true for null or without the property |
| TeneHierarchyWindow.SetEnabled | EditorEnhancements/Editor/HierarchyWindow.cs:157-171 | writes the flag only when the property exists, so it then reads back; otherwise and for null nothing changes |
| TeneHierarchyWindow.Tooltip | EditorEnhancements/Editor/HierarchyWindow.cs:108 | the tooltip drops `UnityEngine.` and is never longer than the type name |
| TeneHierarchyWindow.TooltipOfBuiltIn | EditorEnhancements/Editor/HierarchyWindow.cs:108 | an engine type's tooltip is its short name's |
| TeneHierarchyWindow.Width | EditorEnhancements/Editor/HierarchyWindow.cs:88-129 | a missing script shifts the strip by 9, a component with an icon by 16, the transform and an icon-less component by 0 |
| TeneHierarchyWindow.Offset | EditorEnhancements/Editor/HierarchyWindow.cs:88-129 | the strip moves at most 16 per component |
| TeneHierarchyWindow.OffsetCounts | EditorEnhancements/Editor/HierarchyWindow.cs:88-129 | the offset is 16 per earlier icon plus 9 per earlier missing script |
| TeneHierarchyWindow.OffsetGrows | EditorEnhancements/Editor/HierarchyWindow.cs:88-129 | the strip only moves left, by at least each component's width |
| TeneHierarchyWindow.IconsDisjoint | EditorEnhancements/Editor/HierarchyWindow.cs:118-128 | icons drawn for two components never overlap |
| TeneHierarchyWindow.MarkFor | EditorEnhancements/Editor/HierarchyWindow.cs:90-116 | a missing script is marked 4 right of the slot; an icon sits in the slot and is dimmed iff the component is disabled |
| TeneHierarchyWindow.FirstHit | EditorEnhancements/Editor/HierarchyWindow.cs:118-127 | the clicked icon, if any, lies in the strip |
| TeneHierarchyWindow.FirstHitIsFirst | EditorEnhancements/Editor/HierarchyWindow.cs:118-127 | the clicked icon is hit and no earlier icon is |
| TeneHierarchyWindow.OneHitAtMost | EditorEnhancements/Editor/HierarchyWindow.cs:118-128 | one click hits at most one icon |
| TeneHierarchyWindow.FirstHitAfter | EditorEnhancements/Editor/HierarchyWindow.cs:88-130 | a hit among the first components stays the first hit of any longer strip |
| TeneHierarchyWindow.Strip | EditorEnhancements/Editor/HierarchyWindow.cs:82-130 | the loop starts 16 left of the row's edge, draws each component's mark at its offset, and stops after the first clicked icon |
| TeneHierarchyWindow.HierarchyState.Updated | EditorEnhancements/Editor/HierarchyWindow.cs:50-60 | captures the first scene camera once, only on repaint |
| TeneHierarchyWindow.HierarchyState.Draw | EditorEnhancements/Editor/HierarchyWindow.cs:62-143 | no object draws nothing; the underline appears iff the row is culled; the marks are the strip's; a click flips exactly the hit component's enabled flag and leaves the others alone |

## Left out

- Three host lookups are assumed to return non-null, so the model has no `Thrown` for them: a material's shader (`shader.name`, EditorEnhancements/Editor/AssetInfo.cs:112), a script class's base type (`BaseType.ToString()`, :157) and a MonoBehaviour's script (`ms.name`, :179). `UObject` gives each of them as a plain name. In C# a missing one throws a null reference.
- GUI drawing is not modelled, nor is window behaviour. This covers labels, textures, colours, `CalcSize` measurement, window titles, `ShowPopup`, `Focus`, `Repaint` and `Close`. These calls return nothing the rules use.
- The popup's size and placement in `TeneDropTarget.OnGUI` are not modelled. That geometry uses measured text. Only the repositioning flag it sets on repaint is kept.
- The half-width texture layout in the preview windows is not modelled.
- Colour parsing and formatting are not modelled: `StringToColor`, `ColorToString`, `DefaultBackgroundColor` and the colour of each badge. They depend on floats and culture. `SaveSettings` takes the colour-map string as an input. The colour-map editing UI is commented out in the source.
- Reflection, `AssetDatabase`, `PrefabUtility`, `MonoScript` lookup, `CollectDependencies`, `GetAssetPreview` and icon lookup are inputs. They are values in `UObject` and `AssetDatabase`, or a `preview` parameter. `Directory.GetFiles` is a listing passed in.
- Clocks are integer milliseconds supplied by the caller. `TimeSpan.FromSeconds` rounding is not modelled: an audio clip's length arrives in whole milliseconds.
- Unity's host enum names are given strings. These are the texture format, light type and reverb preset. The `Light` and `AudioReverbFilter` branches therefore only pass their given text along. The `Shader` branch shows the shader's integer render queue.
- The `UNITY_4_0` build variants are not modelled. The model follows the non-4.0 branches.
- `EditorEnhancements/Editor/HeirarchyWindow.cs` is not part of this model. It is an older duplicate of the hierarchy pane.
- `EditorEnhancements/Editor/Defaults.cs` is not part of this model. It holds only constants.
- What each enhancement does in `OnEnable`, `OnDisable` and `DrawPreferences` is not modelled. The registry logs these as `Call` values.
- The default `Name` and `Prefix` ("Nothing", "nothing") are modelled as plain functions, without a contract of their own.
- 32-bit integer overflow is not modelled for the file counter, the throttle or the coordinates. None of them come near the limit.
- Paths use '/' only. On Windows the base path from `Application.dataPath` would use the platform separator, and `Common.Platform` keeps that as a parameter.
- `Undo.RegisterUndo` and `SetDirty` are not modelled. They are editor bookkeeping.
- C# strings are sequences of UTF-16 code units; here a string is a sequence of Dafny characters. Lengths and cuts are counted in characters. This affects `Common.Chunks` and `Common.ChunkSizes` (a character outside the Basic Multilingual Plane is one unit here but two in C#, so a surrogate pair can be split across two chunk keys there and not here), `Common.ProjectPathOf` and `TeneHierarchyWindow.Underline`.
- AssetInfo.DurationTextRoundTrip: a clip of a day or longer reads back modulo one day, as `TimeSpan.Hours` does. The days are not shown.
- TeneHierarchyWindow.FirstHit: its own contract only bounds the index. That it is the first hit is stated by `FirstHitIsFirst`.
- TeneDropTarget.DropTarget.OnGUI: the repositioning flag on the live path and the popup's placement are not stated. The field values are stated through `OfferAll`'s per-component contract; with nothing dragged they are unchanged.
- Enhancements.Registry.DrawAll: the per-row enabled flags are stated only when no two enhancements share a prefix. Enhancements without a `Prefix` override all share "nothing", and their rows then read and write the same key one after another.

## Findings

| source | as written | input that shows it | evidently intended | confidence | as-written member | corrected member |
|---|---|---|---|---|---|---|
| EditorEnhancements/Editor/ProjectWindow.cs:361 | `SaveSettings` calls `EditorPrefs.GetBool` for the hover-preview flag, so the flag is never stored | switch "Show asset preview on hover" off; the next `ReadSettings` reads the old value (default true) | `EditorPrefs.SetBool` of the hover-preview flag, as on the line before | high, not executed | ProjectWindow.ProjectPane.SaveSettings | ProjectWindow.ProjectPane.SaveSettingsIntended |
| EditorEnhancements/Editor/Main.cs:34 | start-up reads `<prefix>_Enabled`, while the tab writes `EE_<prefix>_Enabled` (line 56) | an entry with prefix "A" switched off in the tab (`EE_A_Enabled` = false) still gets `OnEnable` at the next start-up | read the same key the tab writes, `EE_<prefix>_Enabled` | high, not executed | Enhancements.StartupEnablesSwitchedOff | Enhancements.IntendedStartupFollowsToggle |
