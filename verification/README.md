# Fixed-function emulation bridge: a Dafny model

The model covers the GLES bridge from `src/Android/GLESBridge.c`. The bridge is the layer that lets legacy OpenGL 1.x fixed-function calls run on OpenGL ES 3. It keeps the fixed-function state itself:

- three bounded matrix stacks;
- eight lights, fog, the alpha test and six capability toggles;
- the current colour;
- four client-array streams;
- an immediate-mode vertex buffer.

At every draw it uploads this state to one "uber-shader" as uniforms. It also packs the caller's vertex data into an interleaved buffer of 12 floats per vertex. The token values the bridge dispatches on come from `src/Android/gles_compat.h`.

Each entry point is a pure function over one immutable `Bridge` record (`state.dfy`). The native graphics API is not modelled:

- calls into it on the draw and capability paths become `Event`s (uniform sync, vertex upload, attribute setup, index upload, per-vertex-colour switch, draw call, native enable/disable);
- queries the bridge forwards return `Forwarded`.

Inputs the bridge cannot control become parameters:

- whether the shaders link, and the names the native API generates (`Lifecycle.InitOutcome`);
- whether `malloc` succeeds (`ok`);
- the caller's memory, as a function from byte address to float (`Packer.Memory`).

Floats are modelled as reals (see "## Left out" for what rounding this ignores) and enum tokens as naturals.

Modules, following the source's sections:

| file | module | covers |
|---|---|---|
| `common.dfy` | `Common` | `Option`, `Query`, vectors |
| `tokens.dfy` | `Tokens` | the token table and decoders into closed enumerations |
| `matrix.dfy` | `Matrix` | `Mat4_*`: column-major product, identity, translation and scaling operands, normal matrix |
| `stacks.dfy` | `MatrixStacks` | `MatStack_*`, and runs of push/pop/load/multiply |
| `state.dfy` | `BridgeState` | the module-level variables as one record, and the event type |
| `transform.dfy` | `Transform` | `bridge_MatrixMode` .. `bridge_GetFloatv` |
| `store.dfy` | `StateStore` | lights, fog, alpha test, colour, `Enable`/`Disable`/`IsEnabled` |
| `arrays.dfy` | `ClientState` | client-state flags and pointer setters |
| `packer.dfy` | `Packer` | `GLTypeSize`, `UploadClientArrays`, `SetupVAOAttribs` layout, `MaxIndex` |
| `draw.dfy` | `Draw` | `bridge_FlushState`, `bridge_DrawElements`, `bridge_DrawArrays` |
| `immediate.dfy` | `Immediate` | `bridge_Begin` .. `bridge_TexCoord2f` |
| `shader.dfy` | `AlphaShader` | the alpha-test comparison chain of the fragment shader |
| `lifecycle.dfy` | `Lifecycle` | `GLESBridge_Init` and `GLESBridge_Shutdown` |

### Behaviour worth knowing

- **Empty draws.** Only `bridge_End` returns early on an empty buffer.
  - `bridge_DrawElements` always packs at least one vertex, because `MaxIndex` returns `max + 1 >= 1`.
  - `bridge_DrawArrays` with `count == 0` still flushes and issues the draw call.
  - Once its scratch buffer exists, such a draw also issues a zero-byte vertex upload.
  - Before the scratch buffer exists, a zero-byte request does not allocate it, so no upload is issued.
- **Re-initialisation.** A second `GLESBridge_Init` with a linked program resets only the three stacks and the matrix mode.
  - A first initialisation also resets the lights, except their specular colour.
  - Fog, alpha test, global ambient, the toggles, the client arrays and the current colour are never reset.
- **Which streams the packer reads.**
  - The normal, texture-coordinate and colour streams are read only when the pointer is set and the stream is enabled.
  - The position stream is read whenever its pointer is set, whatever its flag.
- **GL_NORMALIZE.** `Enable`/`Disable` record it, but `IsEnabled` forwards it to the native query.

## Model

| member | source | states |
|---|---|---|
| Tokens.MatrixModeOf | src/Android/gles_compat.h:32-34 | exactly the tokens 0x1700..0x1702 name a stack, each decoding to the stack whose token it is |
| Tokens.LightIndexOf | src/Android/gles_compat.h:57-64 | the range check 0x4000..0x4007 accepts exactly the eight light tokens, and maps each to its own index below 8 |
| Tokens.LightParamOf | src/Android/gles_compat.h:66-69 | exactly 0x1200..0x1203 are light parameters, each decoding back to its own token |
| Tokens.ComparisonToken | src/Android/gles_compat.h:111-119 | every alpha-test token lies in 0x0200..0x0207, with GL_NEVER the lowest and GL_ALWAYS the highest |
| Tokens.ComparisonOf | src/Android/gles_compat.h:111-119 | a token is an alpha-test comparison exactly when it lies in 0x0200..0x0207 |
| Tokens.ComparisonRoundTrip | src/Android/gles_compat.h:111-119 | decoding inverts encoding in both directions, so the eight alpha-test tokens are distinct |
| Tokens.StreamOf | src/Android/gles_compat.h:141-144 | exactly the four client-array tokens name a stream, each decoding back to its own token |
| Tokens.StreamRoundTrip | src/Android/gles_compat.h:141-144 | each stream decodes back from its token, so the four tokens are distinct |
| Tokens.ToggleOf | src/Android/GLESBridge.c:827-850 | exactly the six tracked capability tokens name a toggle; none of them is also a light token |
| Tokens.ToggleRoundTrip | src/Android/GLESBridge.c:827-850 | each toggle decodes back from its own token |
| Matrix.Identity | src/Android/GLESBridge.c:72-76 | the identity has 1 on the diagonal and 0 elsewhere, in row/column terms |
| Matrix.MulEntries | src/Android/GLESBridge.c:78-92 | entry (row, col) of the stored product is row `row` of `a` times column `col` of `b`, despite the column-major storage |
| Matrix.Multiply | src/Android/GLESBridge.c:78-92 | the triple loop with its temporary computes exactly the column-major product |
| Matrix.MulIdentity | src/Android/GLESBridge.c:72-92 | the identity is a left and right unit of the product |
| Matrix.Translation | src/Android/GLESBridge.c:662-668 | the translation operand is the identity with x, y, z in column 3 (entries 12..14) |
| Matrix.Scaling | src/Android/GLESBridge.c:684-690 | the scaling operand is the identity with x, y, z on the first three diagonal entries |
| Matrix.MulTranslation | src/Android/GLESBridge.c:662-668 | right-multiplying by a translation keeps columns 0..2 and adds their translated combination to column 3 |
| Matrix.TranslationsCompose | src/Android/GLESBridge.c:662-668 | two translations compose into one with the offsets added |
| Matrix.TranslationRestores | src/Android/GLESBridge.c:662-668 | translating by an offset and then by its negation restores the matrix |
| Matrix.MulScaling | src/Android/GLESBridge.c:684-690 | right-multiplying by a scaling scales columns 0..2 and keeps column 3 |
| Matrix.ScalingRestores | src/Android/GLESBridge.c:684-690 | scaling by non-zero factors and then by their reciprocals restores the matrix |
| Matrix.NormalMatrix | src/Android/GLESBridge.c:95-100 | the normal matrix is the upper-left 3x3 block of the model-view matrix |
| Matrix.NormalMatrixIgnoresTranslation | src/Android/GLESBridge.c:95-100 | a translation of the model-view matrix leaves its normal matrix unchanged |
| MatrixStacks.MatrixStack.SetTop | src/Android/GLESBridge.c:126-129 | writing through the top pointer changes only the top slot and keeps the depth |
| MatrixStacks.MatrixStack.Push | src/Android/GLESBridge.c:131-140 | a full stack is unchanged; otherwise the depth grows by one, the top matrix is the same and the live part gains a copy of it |
| MatrixStacks.MatrixStack.Pop | src/Android/GLESBridge.c:142-150 | a stack holding one matrix is unchanged; otherwise the depth drops by one, no slot changes and the live part loses its last matrix |
| MatrixStacks.MatrixStack.Reset | src/Android/GLESBridge.c:120-124 | the stack holds just the identity at depth 0; the slots above keep their old contents |
| MatrixStacks.PushPop | src/Android/GLESBridge.c:131-150 | a push that does not overflow, followed by a pop, restores the depth, the top and every matrix below it |
| MatrixStacks.BracketedPrefix | src/Android/GLESBridge.c:131-150 | during nested brackets the top sits `Depth` slots above its start, and the slots up to the start stay untouched |
| MatrixStacks.BracketedRunRestores | src/Android/GLESBridge.c:131-150 | nested push/pop brackets that fit in 32 slots restore the live part and the top, whatever they load or multiply inside |
| BridgeState.ClientArrays.Set | src/Android/GLESBridge.c:229-232 | replacing one stream's record leaves the other three as they were |
| BridgeState.Bridge.WithToggle | src/Android/GLESBridge.c:208-211 | setting one toggle leaves the other five as they were |
| BridgeState.Boot | src/Android/GLESBridge.c:167-266 | before initialisation there is no program, no recorded vertex and no enabled or bound client array |
| Transform.MatrixMode | src/Android/GLESBridge.c:618-631 | 0x1700/0x1701/0x1702 select the model-view/projection/texture stack; any other token selects model-view; the raw token is recorded; nothing else changes |
| Transform.LoadIdentity | src/Android/GLESBridge.c:633-636 | only the active stack changes, and its top becomes the identity at the same depth |
| Transform.LoadMatrix | src/Android/GLESBridge.c:638-641 | only the active stack changes, and its top becomes the given matrix at the same depth |
| Transform.MultMatrix | src/Android/GLESBridge.c:643-650 | only the active top changes, to top x operand; every other slot and stack is kept |
| Transform.PushMatrix | src/Android/GLESBridge.c:652-655 | the active stack is pushed and nothing else changes |
| Transform.PopMatrix | src/Android/GLESBridge.c:657-660 | the active stack is popped and nothing else changes |
| Transform.Translate | src/Android/GLESBridge.c:662-668 | only the active stack changes: its top is multiplied by the translation operand |
| Transform.Scale | src/Android/GLESBridge.c:684-690 | only the active stack changes: its top is multiplied by the scaling operand |
| Transform.GetFloatv | src/Android/GLESBridge.c:725-739 | 0x0BA6 answers the model-view top, 0x0BA7 the projection top, and everything else is forwarded |
| Transform.GetFloatvIgnoresMode | src/Android/GLESBridge.c:725-739 | the read-back does not depend on the current matrix mode |
| Transform.LoadIdentityReadBack | src/Android/GLESBridge.c:633-739 | a load of the identity is visible through GL_MODELVIEW_MATRIX exactly when model-view is the active stack |
| Transform.LoadProjectionReadBack | src/Android/GLESBridge.c:618-739 | after selecting GL_PROJECTION and loading m, the projection read-back answers m and the model-view read-back is unchanged |
| Transform.PushPopMatrix | src/Android/GLESBridge.c:652-660 | PushMatrix then PopMatrix restores the depth, top and live matrices, and the bridge differs only in the slot the push wrote |
| Transform.PushPopBounds | src/Android/GLESBridge.c:131-150 | a push on a full stack and a pop at depth 0 change nothing at all |
| Transform.TranslateBack | src/Android/GLESBridge.c:662-668 | translating and translating back restores the whole bridge state |
| Transform.ScaleBack | src/Android/GLESBridge.c:684-690 | scaling by non-zero factors and then by their reciprocals restores the whole bridge state |
| StateStore.WithLightParam | src/Android/GLESBridge.c:752-762 | one light parameter is overwritten; the other three and the flag are kept |
| StateStore.Lightfv | src/Android/GLESBridge.c:745-764 | a light token outside the eight, or an unknown parameter, changes nothing; otherwise exactly one 4-vector of one light changes |
| StateStore.LightfvLastWins | src/Android/GLESBridge.c:745-764 | of two Lightfv calls on the same light and parameter, the second wins |
| StateStore.LightModelfv | src/Android/GLESBridge.c:766-770 | only GL_LIGHT_MODEL_AMBIENT is stored; every other parameter changes nothing |
| StateStore.Fogf | src/Android/GLESBridge.c:786-795 | start, end and density are stored in their own field; any other parameter changes nothing |
| StateStore.FogfLastWins | src/Android/GLESBridge.c:786-795 | of two Fogf calls with the same parameter name, the second wins |
| StateStore.Fogfv | src/Android/GLESBridge.c:797-803 | the colour is stored here; every other parameter behaves as Fogf with the first element |
| StateStore.Fogi | src/Android/GLESBridge.c:805-811 | the mode is stored here; every other parameter behaves as Fogf with the value as a float |
| StateStore.FogSettersKeepEnable | src/Android/GLESBridge.c:786-811 | no fog setter switches fog on or off |
| StateStore.AlphaFunc | src/Android/GLESBridge.c:817-821 | the token (unchecked) and the reference are stored; the enable flag and the rest of the state are kept |
| StateStore.Color4f | src/Android/GLESBridge.c:956-962 | the current colour becomes (r, g, b, a) and nothing else changes |
| StateStore.Color4fv | src/Android/GLESBridge.c:964-967 | the current colour becomes the given vector and nothing else changes |
| StateStore.SetCapability | src/Android/GLESBridge.c:827-874 | a light cap flips only that light's flag; a tracked toggle flips only that toggle; any other cap leaves the state alone and becomes one native call |
| StateStore.Enable | src/Android/GLESBridge.c:827-850 | a light cap sets only that light's flag and a tracked toggle only that toggle, so IsEnabled answers on; an untracked cap is passed to the native call and changes nothing |
| StateStore.Disable | src/Android/GLESBridge.c:852-874 | a light cap clears only that light's flag and a tracked toggle only that toggle, so IsEnabled answers off; an untracked cap is passed to the native call and changes nothing |
| StateStore.IsEnabled | src/Android/GLESBridge.c:876-890 | lights and five toggles are answered from the state, and exactly those; GL_NORMALIZE and the rest are forwarded |
| StateStore.NormalizeTrackedNotAnswered | src/Android/GLESBridge.c:827-890 | GL_NORMALIZE is stored by Enable/Disable but never answered by IsEnabled |
| StateStore.LastSetWins | src/Android/GLESBridge.c:827-874 | of an Enable and a Disable of the same capability, the later one wins |
| StateStore.ToggleTwice | src/Android/GLESBridge.c:208-211 | setting a toggle twice leaves the second value |
| StateStore.SetCapabilityFrame | src/Android/GLESBridge.c:827-890 | enabling or disabling one capability never changes the answer for another |
| ClientState.WithArray | src/Android/GLESBridge.c:220-232 | one stream's record is replaced and the other three are kept |
| ClientState.SetClientState | src/Android/GLESBridge.c:896-918 | one of the four array tokens sets only that stream's flag; any other token changes nothing |
| ClientState.EnableClientState | src/Android/GLESBridge.c:896-906 | only the named stream's flag changes, to enabled; an unknown token changes nothing |
| ClientState.DisableClientState | src/Android/GLESBridge.c:908-918 | only the named stream's flag changes, to disabled; an unknown token changes nothing |
| ClientState.SetPointer | src/Android/GLESBridge.c:920-950 | size, type, stride and pointer are stored unchecked, the flag is kept, and the other streams are untouched |
| ClientState.VertexPointer | src/Android/GLESBridge.c:920-926 | the position stream records the given size, type, stride and pointer; nothing else changes |
| ClientState.NormalPointer | src/Android/GLESBridge.c:928-934 | the normal stream records size 3 with the given type, stride and pointer; nothing else changes |
| ClientState.TexCoordPointer | src/Android/GLESBridge.c:936-942 | the texture-coordinate stream records the given parameters; nothing else changes |
| ClientState.ColorPointer | src/Android/GLESBridge.c:944-950 | the colour stream records the given parameters; nothing else changes |
| ClientState.PointerAndFlagCommute | src/Android/GLESBridge.c:896-950 | binding a pointer and toggling a stream commute |
| ClientState.ArraysExtensionality | src/Android/GLESBridge.c:229-232 | the four streams determine the client-array state |
| ClientState.ClientStateLastWins | src/Android/GLESBridge.c:896-918 | of an enable and a disable of the same stream, the later one wins |
| Packer.TypeSize | src/Android/GLESBridge.c:1028-1040 | sizes range over 1..4; 1 exactly for unsigned byte; 2 exactly for the two short types; every unknown type counts as 4 |
| Packer.StreamStride | src/Android/GLESBridge.c:1064-1067 | a non-zero stride is used as given; a zero stride becomes size x type size, with 3 components for normals |
| Packer.ReadFloats | src/Android/GLESBridge.c:1076-1101 | component j of an element is the float 4j bytes after its address |
| Packer.Element | src/Android/GLESBridge.c:1076-1101 | component j of element i of a bound stream is the float at pointer + i x resolved stride + 4j |
| Packer.PackVertex | src/Android/GLESBridge.c:1069-1108 | position comes from the vertex array whenever its pointer is set, else (0,0,0). Normal, texcoord and colour come from their arrays only when pointer and flag are both set; otherwise (0,0,1), (0,0) and the current colour |
| Packer.Pack | src/Android/GLESBridge.c:1069-1108 | for a positive count, every packed vertex is built from the streams in the same way; a count that is not positive packs nothing |
| Packer.VertexFloats | src/Android/GLESBridge.c:1071-1107 | a vertex is 12 floats, with position, normal, texcoord and colour at offsets 0, 3, 6 and 8 |
| Packer.Flatten | src/Android/GLESBridge.c:1071 | the interleaved buffer holds 12 floats per vertex |
| Packer.FlattenSlice | src/Android/GLESBridge.c:1071 | vertex i occupies the 12 floats from 12i on |
| Packer.FlattenLayout | src/Android/GLESBridge.c:1117-1135 | the attribute offsets 0/12/24/32 bytes and stride 48 that the VAO declares read back exactly the four attributes of each vertex |
| Packer.SliceOfSlice | src/Android/GLESBridge.c:1071 | a slice of a vertex's slice is a slice of the buffer |
| Packer.PackBuffer | src/Android/GLESBridge.c:1069-1108 | the packing loop writes exactly the interleaved packed vertices, 12n floats for n > 0 |
| Packer.PackPrefix | src/Android/GLESBridge.c:1069-1108 | packing fewer vertices gives a prefix of packing more |
| Packer.PackColors | src/Android/GLESBridge.c:1097-1107 | colours come from the colour array exactly when it is bound and enabled; otherwise every vertex has the current colour |
| Packer.PackNormals | src/Android/GLESBridge.c:1081-1087 | normals come from the normal array exactly when it is bound and enabled; otherwise every vertex has (0,0,1) |
| Packer.PackTexCoords | src/Android/GLESBridge.c:1089-1095 | texture coordinates come from their array exactly when it is bound and enabled; otherwise every vertex has (0,0) |
| Packer.PackPositions | src/Android/GLESBridge.c:1073-1079 | positions come from the vertex array whenever its pointer is set; otherwise every vertex is at the origin |
| Packer.PackDefaults | src/Android/GLESBridge.c:1073-1107 | with no stream feeding, every vertex is position 0, normal (0,0,1), texcoord (0,0), current colour |
| Packer.PositionIgnoresEnable | src/Android/GLESBridge.c:1073-1079 | the position stream's enable flag never changes what is packed |
| Packer.Shift | src/Android/GLESBridge.c:1193-1203 | every bound pointer moves `first` resolved strides ahead; NULL pointers and every other field are kept |
| Packer.PackShift | src/Android/GLESBridge.c:1193-1205 | packing `count` vertices from the shifted pointers equals elements first..first+count of the unshifted arrays |
| Packer.ShiftedVertex | src/Android/GLESBridge.c:1193-1205 | one vertex packed from shifted pointers is vertex first+i of the original |
| Packer.HasVertexColors | src/Android/GLESBridge.c:1208 | the per-vertex-colour switch is on exactly when the packed colours come from the colour array |
| Packer.Grow | src/Android/GLESBridge.c:1048-1057 | a larger request reallocates and records exactly the requested capacity, even if malloc fails; otherwise the buffer is kept |
| Packer.GrowReuses | src/Android/GLESBridge.c:1048-1057 | a request no larger than an earlier one keeps the buffer, so after a failed allocation it stays missing until a larger request |
| Packer.IndexValue | src/Android/GLESBridge.c:1138-1160 | 8- and 16-bit indices keep their value; a 32-bit index is read as signed, so one of 2^31 or more reads as raw - 2^32 |
| Packer.Largest | src/Android/GLESBridge.c:1138-1160 | the result is at least 0, at least every index read, and 0 or one of them |
| Packer.VertexCount | src/Android/GLESBridge.c:1138-1160 | at least 1; exactly 1 for an unknown index type or a count that is not positive; greater than every index read, and either 1 or one more than an index read |
| Packer.MaxIndex | src/Android/GLESBridge.c:1138-1160 | the scan returns the largest index read plus one (at least 1) |
| Packer.QuadIndices | src/Android/GLESBridge.c:1138-1160 | the indices 0,1,2,0,2,3 need four vertices |
| Packer.HighUnsignedIndexIgnored | src/Android/GLESBridge.c:1152-1156 | a 32-bit index of 2^31 does not raise the vertex count |
| Draw.UniformsOf | src/Android/GLESBridge.c:973-1022 | the flush uploads the three stack tops and the normal matrix; the lighting, colour-material and texture switches; the global ambient and current colour; each light's flag, position, ambient and diffuse. The fog colour, start and end, and the alpha reference and token, go up exactly while those features are on |
| Draw.FlushState | src/Android/GLESBridge.c:973-1022 | without a program nothing is uploaded; with one, a single uniform sync |
| Draw.UniformsIgnoreUnused | src/Android/GLESBridge.c:973-1022 | the upload ignores specular colours, GL_NORMALIZE, fog density and mode, and the parameters of a disabled fog or alpha test |
| Draw.NormalMatrixOfUpload | src/Android/GLESBridge.c:973-1022 | the uploaded normal matrix is the upper-left 3x3 of the uploaded model-view matrix |
| Draw.UploadBytes | src/Android/GLESBridge.c:1045-1050 | a packed upload of n vertices takes 12 four-byte floats per vertex, and is negative exactly when n is |
| Draw.DrawElements | src/Android/GLESBridge.c:1162-1180 | without a program, nothing happens. Otherwise: flush; upload of VertexCount packed vertices if the scratch buffer exists; attributes; index upload of count x type size bytes; colour switch; indexed draw. Only the scratch buffer changes |
| Draw.DrawElementsCoversIndices | src/Android/GLESBridge.c:1162-1180 | at least one vertex is uploaded, and every index the draw reads is below the number uploaded |
| Draw.DrawArraysStreams | src/Android/GLESBridge.c:1193-1203 | the pointers are advanced only for a positive `first`, and no pointer is bound or unbound |
| Draw.DrawArrays | src/Android/GLESBridge.c:1182-1216 | without a program, nothing happens. Otherwise the calls are exactly: the flush; the upload of `count` vertices packed from the pointers advanced by `first`, present only when the scratch buffer is; the attribute setup; the colour switch; the non-indexed draw of `count` vertices. The client arrays are restored, and only the scratch buffer changes, growing to `count` vertices' bytes |
| Draw.DrawArraysUploadsRange | src/Android/GLESBridge.c:1182-1216 | the uploaded vertices are elements first..first+count of the client arrays (from 0 when first <= 0), in 48 x count bytes |
| Draw.MissingScratchSkipsUpload | src/Android/GLESBridge.c:1057 | when the scratch buffer cannot be allocated, the draw still happens, without a vertex upload |
| Immediate.Begin | src/Android/GLESBridge.c:1222-1226 | the buffer is emptied and the mode recorded; nothing else changes |
| Immediate.Snapshot | src/Android/GLESBridge.c:1267-1279 | a recorded vertex has the given position and the current normal, texture coordinate and colour |
| Immediate.Vertex3f | src/Android/GLESBridge.c:1267-1279 | while not full, one vertex with the current normal, texcoord and colour is appended and earlier ones are kept; when full, nothing changes |
| Immediate.Vertex2f | src/Android/GLESBridge.c:1281-1284 | behaves as Vertex3f with z = 0 |
| Immediate.Normal3f | src/Android/GLESBridge.c:1286-1291 | only the current normal changes |
| Immediate.TexCoord2f | src/Android/GLESBridge.c:1293-1297 | only the current texture coordinate changes |
| Immediate.End | src/Android/GLESBridge.c:1228-1265 | an empty buffer, or no program, changes nothing. Otherwise: flush; if the scratch buffer exists, upload of the recorded vertices, attributes, colour switch on, and a draw of them in the Begin mode. The buffer is emptied |
| Immediate.RecordAll | src/Android/GLESBridge.c:1267-1279 | recording vertices changes only the buffer, which grows by at most one entry per vertex and by exactly one while it has room |
| Immediate.RecordAllContents | src/Android/GLESBridge.c:1267-1279 | a run of vertices keeps earlier entries, stops at 8192, and stamps each vertex with the attributes current at the time |
| Immediate.Recorded | src/Android/GLESBridge.c:1267-1279 | one recorded vertex per position, with that position |
| Immediate.RecordFromEmpty | src/Android/GLESBridge.c:1267-1279 | recording up to 8192 vertices into an empty buffer records exactly one stamped vertex per position |
| Immediate.BeginRecords | src/Android/GLESBridge.c:1222-1279 | Begin followed by up to 8192 vertices records exactly those vertices |
| Immediate.BeginVerticesEnd | src/Android/GLESBridge.c:1222-1279 | Begin, vertices, End: with a program and a scratch buffer, five calls uploading exactly those vertices and drawing them in the Begin mode, leaving the buffer empty |
| Immediate.FullBufferDrops | src/Android/GLESBridge.c:1269 | vertices beyond 8192 are dropped |
| Immediate.EndTwice | src/Android/GLESBridge.c:1228-1265 | End with a program always empties the buffer, so a second End does nothing |
| AlphaShader.Compare | src/Android/GLESBridge.c:401-415 | GL_ALWAYS always passes and GL_NEVER never does |
| AlphaShader.AlphaPasses | src/Android/GLESBridge.c:401-415 | in the shader chain GL_ALWAYS passes, GL_NEVER fails, and a token outside 0x0200..0x0207 passes |
| AlphaShader.AlphaAgrees | src/Android/GLESBridge.c:401-415 | the shader's chain on each token implements the comparison the token names |
| AlphaShader.UnknownTokenPasses | src/Android/GLESBridge.c:401-415 | a token outside 0x0200..0x0207 never discards |
| AlphaShader.ComplementaryPairs | src/Android/GLESBridge.c:401-415 | LESS/GEQUAL, EQUAL/NOTEQUAL, LEQUAL/GREATER and NEVER/ALWAYS are complementary |
| AlphaShader.GreaterHalf | src/Android/GLESBridge.c:401-415 | under GL_GREATER with reference 0.5, alpha 0.4 is discarded and 0.6 kept |
| AlphaShader.FlushedAlphaTest | src/Android/GLESBridge.c:401-415 | after a flush, nothing is discarded while the test is off; with a known token, exactly the fragments failing the stored comparison are discarded |
| Lifecycle.ResetStacks | src/Android/GLESBridge.c:485-499 | all three stacks hold just the identity, model-view is selected, and the mode is GL_MODELVIEW |
| Lifecycle.InitialLight | src/Android/GLESBridge.c:501-513 | a light is off, with black ambient and position (0,0,1,0); its diffuse is white for light 0 and (0,0,0,1) for the others; specular is kept |
| Lifecycle.Init | src/Android/GLESBridge.c:480-604 | with a program, only the stacks and mode are reset. Otherwise the lights are reset too, and the new program and names are kept only if linking succeeded. Nothing else changes |
| Lifecycle.Shutdown | src/Android/GLESBridge.c:606-612 | every handle becomes 0 and nothing else changes |
| Lifecycle.InitIdempotent | src/Android/GLESBridge.c:480-492 | once a program exists, a second Init changes nothing, whatever the native API would answer |
| Lifecycle.ReinitKeepsLights | src/Android/GLESBridge.c:480-492 | a re-init keeps the lights as the caller set them but resets the model-view stack |
| Lifecycle.RetryAfterFailedLink | src/Android/GLESBridge.c:480-526 | after a failed link, trying again is the same as a single first Init |
| Lifecycle.ShutdownIdempotent | src/Android/GLESBridge.c:606-612 | Shutdown twice is Shutdown once |
| Lifecycle.DrawsAfterShutdown | src/Android/GLESBridge.c:606-612 | after Shutdown the flush and every draw entry point do nothing |
| Lifecycle.RestartAfterShutdown | src/Android/GLESBridge.c:480-612 | Shutdown then an Init that links resets the lights and installs the new program and names |

## Left out

- `bridge_Rotatef`, `bridge_Ortho` and `bridge_Frustum`: they need `sinf`/`cosf`/`sqrtf` and float division. Each ends in the same multiply of the active top as `Transform.MultMatrix`, so only their operand is missing.
- Shader compilation and linking, and the attribute and uniform location lookups (`CompileShader`, `LinkProgram`, the rest of `GLESBridge_Init`). The link outcome and the generated names are the `InitOutcome` parameter.
- The GLSL vertex and fragment shaders, apart from the alpha test: lighting, fog and texturing are floating-point numerics on the GPU. The uploaded uniforms are modelled (`Draw.UniformsOf`).
- The bodies of the native buffer, VAO and draw calls on the draw path, including `glBindVertexArray(0)` after each draw. Each such call is an `Event`. `SetupVAOAttribs` is one `BindAttributes` event; its layout is stated by `Packer.FlattenLayout`.
- Lifecycle.Shutdown: the native deletions of the program, the two buffers and the VAO (`glDeleteProgram`, `glDeleteBuffers`, `glDeleteVertexArrays`) are not modelled as events; only the handles being reset to 0 is.
- Floating-point rounding: floats are reals, so Matrix.TranslationsCompose, Matrix.TranslationRestores, Matrix.ScalingRestores, Transform.TranslateBack and Transform.ScaleBack hold exactly in the model but only up to rounding in the program, where `Mat4_Multiply` rounds every product and sum and `1.0/x` is not exact.
- `bridge_Materialfv`, `bridge_ColorMaterial`, `bridge_Hint` and `bridge_PolygonMode`: they ignore their arguments and change nothing.
- Draw.UploadBytes: `numVerts * kStride` and `count * GLTypeSize(type)` are 32-bit `int` products in C. The model uses unbounded integers, so it does not model overflow for more than about 44 million vertices.
- Packer.Memory: every component is read as a 32-bit float whatever element type was declared, as in the C code. The model does not model reinterpreting bytes that hold integers; it treats the caller's memory as a map from byte address to float value.
- BridgeState.Boot: before the first `GLESBridge_Init`, `gCurrentStack` is NULL in C, so a matrix call then dereferences NULL. The model selects the model-view stack instead.
- StateStore.Fogi: the conversion of the integer to a float is exact here; a C `float` rounds integers above 2^24.
- StateStore.Fogfv: the model requires the caller to pass at least four floats for the colour and one otherwise, because C reads that many through the pointer.
- The pixel-level effect of a zero or negative `count` on the native draw call; the model records the call with the count as given.
- The macro redirects at the end of `src/Android/gles_compat.h`, which route the legacy names to the `bridge_*` functions.
- The rest of the repository (touch controls, asset extraction, boot code, web and stub files, Android packaging), which does not belong to the bridge.
