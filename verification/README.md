# Shoe configurator: hover/selection state machine

This project models the interactive core of a browser shoe configurator (`main.js`).
A 3D shoe model is loaded and each of its meshes becomes a *part*. The user hovers
parts with the pointer, and a hovered part glows with emissive `0x555555`. Clicking
selects the hovered part, which then glows with `0x999999`. The user then changes
the selected part's colour, picks a preset texture (`leather`, `rubber`, `denim` or
`none`), or uploads an image to use as its texture.

The model is functional. The page state (`Shoe.State`) is an immutable record that
holds:

- the sequence of parts (name, colour, emissive, surface map);
- `hovered` and `selected`, each an `Option` index into the parts;
- the page controls the handlers reset: the texture picker value, the chosen image
  file, the selected-part label, and whether the option panels are shown.

Each event handler is one pure transition in module `Handlers`. Module `Highlight`
defines the *well-highlighted* invariant:

- the hover glow is on exactly the hovered part, and only while that part is not
  selected;
- only the selected part may carry the selection glow;
- every other part is dark.

`Highlight` proves that every handler preserves this invariant. Module `Session`
runs arbitrary event sequences, including asynchronous image-decode completions
that arrive in any order, and proves that the invariant holds after every run
starting from a freshly loaded model. Module `Loading` models the load-time pass
that gives every mesh a part with a non-empty name.

The external picking routine (mouse coordinates to nearest object) becomes the
`Option<nat>` argument of `Handlers.PointerMove`. The model assumes every pick is
one of the loaded meshes, so the picked index must name a part. The raycaster can
also return line and point objects of the model; that case is listed under
"## Left out".

## Model

| member | source | states |
|---|---|---|
| `Shoe.Init` | main.js:52-54 | Right after loading, nothing is hovered or selected and the parts are those loaded. |
| `Loading.Label` | main.js:68-70 | A mesh's name after loading is never empty. A named mesh keeps its name; an unnamed one gets "Part undefined" (the traversal passes no index). |
| `Loading.AsPart` | main.js:64-72 | A mesh becomes a part with a non-empty name and its own copy of its material; a named mesh keeps its name. |
| `Loading.MeshesExactly` | main.js:64-65 | A node becomes a part exactly when it is one of the scene graph's meshes. |
| `Loading.LoadParts` | main.js:64-72 | Visiting the scene graph in traversal order produces exactly one part per mesh, in order, each labelled and carrying that mesh's material. Non-mesh nodes produce nothing. |
| `Loading.LoadedPartsShowOwnName` | main.js:68-70 | After loading, the label published on selection is the part's own name; the "Unnamed part" fallback never appears unless a mesh is literally named so. |
| `Handlers.DisplayName` | main.js:126 | The published label is never empty. It is the part's name when that is non-empty, and "Unnamed part" otherwise. |
| `Handlers.PointerMove` | main.js:88-110 | Moving onto the already hovered part changes nothing. Moving onto a different part resets the texture picker to "none", darkens the old hovered part unless it is selected, makes the new part hovered, and gives it the hover glow unless it is selected. Moving onto nothing darkens and un-hovers the hovered part, but only when it is not the selected part; otherwise nothing changes. The selected part's glow is never touched, the selection never changes, and no part is touched beyond these two. |
| `Handlers.Click` | main.js:113-133 | Without a hovered part a click changes nothing. Otherwise the previous selection goes dark and the hovered part becomes the selection, so hovered = selected. The new selection glows `0x999999`, and both pickers are reset. A non-empty label is published (the part's name when it has one) and both option panels are shown. No other part changes, and no colour, map or name changes. |
| `Handlers.ColorInput` | main.js:136-143 | With a selection, that part takes the colour and its glow is cleared to dark; its name and map are kept and no other part changes. Without a selection nothing changes. |
| `Handlers.TextureFor` | main.js:27-31 | The preset table maps each of `leather`, `rubber`, `denim` to its texture; any other key yields no map. |
| `Handlers.TextureChange` | main.js:146-158 | The picker holds the chosen key. With a selection, that part's map becomes empty for "none", the preset for a table key, and empty (undefined) for any other key. Its colour, name and glow are kept and no other part changes. Without a selection no part changes. |
| `Handlers.ImageChange` | main.js:161-178 | No part changes synchronously. Without a selection the warning "Please select a part of the shoe first." is raised. With a selection and no file nothing happens. With a selection and a file, exactly that file's decode is started. |
| `Handlers.DecodeCompleted` | main.js:166-172 | When a decode completes, its image becomes the map of the part selected at completion time. That part's colour, name and glow are kept, and nothing else changes. |
| `Handlers.PointerMoveIdempotent` | main.js:96 | A second pointer move to the same place is a no-op. |
| `Handlers.ClickIdempotent` | main.js:114-127 | Clicking again without moving changes nothing more. |
| `Handlers.ColorInputIdempotent` | main.js:137-141 | Applying the same colour twice gives the state after the first application. |
| `Handlers.TextureChangeLastWins` | main.js:150-154 | Two texture choices in a row equal the last one alone. In particular "none" after any map leaves no map, and a preset replaces an uploaded image. |
| `Highlight.InitWellHighlighted` | main.js:52-54 | A loaded model whose parts are all dark, with nothing hovered or selected, is well highlighted. |
| `Highlight.HoverGlowExactlyHovered` | main.js:98-104 | In a well-highlighted state a part glows `0x555555` exactly when it is hovered and not selected. |
| `Highlight.SelectGlowOnlySelected` | main.js:115-119 | In a well-highlighted state only the selected part can glow `0x999999`. |
| `Highlight.NoStaleGlow` | main.js:98-116 | In a well-highlighted state a part neither hovered nor selected is dark. |
| `Highlight.AtMostOneOfEachGlow` | main.js:98-119 | At most one part carries the hover glow and at most one carries the selection glow. |
| `Highlight.PointerMoveWellHighlighted` | main.js:95-109 | A pointer move preserves the highlight invariant. |
| `Highlight.ClickWellHighlighted` | main.js:114-119 | A click preserves the highlight invariant. |
| `Highlight.ColorInputWellHighlighted` | main.js:137-141 | A colour change preserves the highlight invariant. |
| `Highlight.TextureChangeWellHighlighted` | main.js:147-157 | A texture change preserves the highlight invariant. |
| `Highlight.ImageChangeWellHighlighted` | main.js:162-177 | An image pick preserves the highlight invariant. |
| `Highlight.DecodeCompletedWellHighlighted` | main.js:166-172 | A decode completion preserves the highlight invariant. |
| `Session.Step` | main.js:88-178 | Every allowed event preserves the highlight invariant and the part count. It keeps a selection once made. It keeps every pending decode backed by a selection. |
| `Session.Run` | main.js:88-178 | Any sequence of allowed events preserves the highlight invariant and the part count. A selection, once made, is never cleared. |
| `Session.Start` | main.js:52-54 | The session after loading a dark model is well highlighted and has no decode in flight. |
| `Session.EveryRunWellHighlighted` | main.js:95-141 | From a freshly loaded dark model, every run of events ends well highlighted. |
| `Session.StepWithoutClick` | main.js:95-177 | With nothing selected, any event but a click leaves nothing selected and starts no decode, because the image pick only warns. No part's colour, map or name changes. |
| `Session.NoClickNoSelection` | main.js:114-177 | Without a click nothing is ever selected, so no decode is ever started. Every image pick only warns, and no part's colour, map or name changes. |
| `Session.DecodeFollowsCurrentSelection` | main.js:162-172 | Picking an image for part `a` starts its decode. If the user then hovers and clicks part `b`, the completed decode lands on `b`, and `a` keeps its map. |

## Left out

- Scene, camera, renderer, lights, background, orbit controls and resize handling (main.js:6-46). These are rendering-library set-up with no logic of their own.
- Mouse-coordinate normalisation and raycasting (main.js:89-93). These are floating-point work inside the rendering library; the pick result is an input.
- Material cloning and the load-error path (main.js:66-67, 180-183). A clone is modelled as a value copy; a failed load never produces a state.
- The scene graph is flattened to its traversal order. Parts are picked by index, so the reference identity the source compares with `!==` becomes index equality.
- Reading the file and decoding the texture (main.js:165-173) are asynchronous library work. The decode result is the raw file contents, and a failed decode is not modelled.
- The colour picker's value is an already-parsed 24-bit RGB value; the string parsing of `color.set` is library work.
- The initial emissive of each loaded material is assumed dark. The source does not reset it; `Session.Start` states this as its precondition.
- `textures[key]` for a key like `constructor`, which resolves on the object's prototype chain, is not modelled. Any key outside the table yields no map, which is what an `undefined` map renders as.
- DOM writes other than the controls named above are not modelled: the `alert` is an outcome value, and the place-order button (main.js:186-189) and the animation loop (main.js:192-196) are omitted.
- Behaviours of other variants of the page are absent from `main.js` and not modelled. These are: resetting everything when the order dialog closes, resetting the colour to white on upload, guarding colour edits while an image is active, and the settings panel.
- Picks are assumed to be loaded meshes. `intersectObjects` (main.js:93) can also return the model's `Line`, `LineSegments` or `Points` objects, which main.js:65 never turns into parts. On such a pick, main.js:103 throws because the object's material has no emissive. Every later move then throws at main.js:99 or main.js:107 before `hoveredPart` is reassigned, so the hover stays stuck until a click. This exception path is not modelled.
- Every part's material is assumed to have an emissive channel. main.js calls `emissive.setHex` without a guard (lines 99, 103, 107, 116, 119, 140), and throws partway through a handler for a material without one, such as `MeshBasicMaterial`. For example, a click has then already changed the selection (main.js:118) but not reset the pickers or published the label. A colour edit has already set the colour (main.js:139) but not cleared the glow. These partial updates are not modelled.
- The page's initial control values (HTML) are a parameter of `Shoe.Init`.
