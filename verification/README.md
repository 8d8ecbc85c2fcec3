# TRACS strip-sensor boundaries and carrier drift, in Dafny

This project models two pure pieces of the TRACS strip-sensor simulator.

- **Boundary sub-domains** (`src/SMSDSubDomains.cpp`). These are the predicates the finite-element solver uses to mark boundary conditions. They cover the central strip electrode, its neighbouring strips, the back plane and the periodic left/right lateral faces. They exist for the electric-field problem and, with the suffix `WP`, for the weighting-potential problem. Each predicate classifies a 2D point together with the solver's `on_boundary` flag. The periodic sub-domain also maps the right face onto the left face.
- **Drift transport** (`src/CarrierTransport.cpp`). This is the right-hand side dx/dt = f(x) that the ODE stepper integrates to move one electron or hole. It returns sign · μ(|E|) · E, where E is sampled from the solved field.

Files:

- `plane.dfy` (module `Plane`): points/vectors `Vec2`, `Abs`, and the tolerance type `Tolerance`.
- `subdomains.dfy` (module `SubDomains`): the strip geometry, the strip-window test, one function per `inside` and the periodic `map`. It also has the neighbour-strip loop as a method, a `SubDomain` sum type that dispatches over all seven classes, and the properties.
- `carrier_transport.dfy` (module `CarrierTransport`): the carrier sign, the evaluator record built by the constructor, the velocity, and its properties.

Modelling choices:

- Doubles become `real`. `DOLFIN_EPS` becomes a parameter `eps` of type `Tolerance`, meaning any real > 0. Every property is therefore proved for every positive tolerance. The constant `DolfinEps` (3.0e-16, dolfin's value) is used only by the worked example.
- The strip index `nns` is an `int`, as in the source. A negative `nns` makes the loop bound `1 + 2*nns` negative, and then no neighbour window is checked.
- The `for` loop of `NeighbourStripBoundary::inside` is modelled as the method `ScanNeighbourWindows`. Like the source, it has no early exit. It is proved equal to an existential over `NeighbourIndices(nns)`, the indices 0..2·nns without `nns`.
- The solver's field evaluator is a total function `Vec2 -> Vec2`. The source samples it at the 3D point (x, y, 0).
- `sqrt` is a function parameter of `Velocity`.
- The mobility law is a function `(carrier type, temperature, |E|) -> mobility`. It is held in a `Mobility` record built from the carrier type and temperature, like the source's member `_mu(carrier_type, givenT)`.
- An unrecognised carrier character is kept permissive: every character other than `'e'` gets the hole sign, as the source does.
- The weighting-potential back plane differs from the full-field one: it ignores x and `on_boundary`. The source says nothing about why; the only other version is a commented-out variant (src/SMSDSubDomains.cpp:234-248) that does test `on_boundary`. The model keeps the compiled version and proves the difference (`BackPlaneVariantsDisagree`).

Facts about the code that a reader might not expect:

- Pitch 80, width 20 and `nns` 1 give the local window (30·(1−ε), 50·(1+ε)). So x = 110 (local 30) and x = 130 (local 50) are accepted, and x = 131 (local 51) is rejected. See `CentralStripWorkedExample`.
- Only the full-field strip and back-plane classes are false at every point with ε ≤ y ≤ depth − ε·depth (`FullFieldInteriorUnmarked`). They still accept points just inside the faces: the strips take any y < ε (inside their window), and the back plane takes depth − ε·depth < y < depth. The periodic face ignores y. The WP strips are gated on y < dw·(1−ε), not on y ≈ 0 (`CentralStripWPBeyondFrontFace`), although the source comment says "y = 0".

## Model

| member | source | states |
|---|---|---|
| Plane.Abs | src/SMSDSubDomains.cpp:143 | `std::abs` is non-negative and equals r or −r |
| SubDomains.LeftLimit | src/SMSDSubDomains.cpp:48 | the two margins l_lim and the strip width fill the cell exactly; if 0 ≤ width ≤ pitch then 0 ≤ l_lim ≤ pitch/2 |
| SubDomains.RightLimit | src/SMSDSubDomains.cpp:48-49 | l_lim + r_lim = pitch, so the strip is centred in its cell; if 0 ≤ width ≤ pitch then 0 ≤ l_lim ≤ r_lim ≤ pitch |
| SubDomains.InStripWindow | src/SMSDSubDomains.cpp:47-50 | the ε-widening only enlarges the window: with l_lim ≥ 0, every x strictly inside the strip pitch·count + l_lim < x < pitch·count + r_lim passes (the same test recurs at lines 85-88, 173-176 and 202-205) |
| SubDomains.NeighbourIndices | src/SMSDSubDomains.cpp:80-83 | the loop visits max(0, 2·nns) non-central indices, in increasing order; c is visited iff 0 ≤ c < 1+2·nns and c ≠ nns |
| SubDomains.NeighbourIndicesExample | src/SMSDSubDomains.cpp:80-83 | nns = 2 checks indices [0, 1, 3, 4]; nns = 0 checks none |
| SubDomains.ScanNeighbourWindows | src/SMSDSubDomains.cpp:80-93 | the loop, with no early exit, sets `is_inside` iff some non-central strip window holds x |
| SubDomains.WidenedWindowLength | src/SMSDSubDomains.cpp:47-50 | the widened window is width + ε·pitch long |
| SubDomains.NarrowWindowFitsCell | src/SMSDSubDomains.cpp:47-50 | if width ≤ pitch·(1−ε), the widened window is no longer than one cell |
| SubDomains.CellStartsOrdered | src/SMSDSubDomains.cpp:85 | for lo < hi and 0 < pitch, the origin pitch·hi of cell hi is at least one pitch past pitch·lo |
| SubDomains.OrderedWindowsDisjoint | src/SMSDSubDomains.cpp:47-50 | for lo < hi, no x lies in both windows, given 0 < pitch and width ≤ pitch·(1−ε) |
| SubDomains.WindowsDisjoint | src/SMSDSubDomains.cpp:85-88 | windows of distinct strip indices are disjoint under the same geometry bound |
| SubDomains.WindowsOverlapWhenWide | src/SMSDSubDomains.cpp:85-88 | the bound is exact: if width > pitch·(1−ε), windows c and c+1 share a point |
| SubDomains.StripCentreInWindow | src/SMSDSubDomains.cpp:47-50 | for 0 < pitch and 0 ≤ width ≤ pitch, window c holds its strip's centre pitch·c + pitch/2 |
| SubDomains.CentralStripInside | src/SMSDSubDomains.cpp:42-56 | acceptance implies `on_boundary` and y < ε, so it is false whenever `on_boundary` is false |
| SubDomains.CentralStripAbsoluteWindow | src/SMSDSubDomains.cpp:42-56 | accepted iff `on_boundary`, y < ε and pitch·nns + l_lim·(1−ε) < x < pitch·nns + r_lim·(1+ε) |
| SubDomains.CentralStripWorkedExample | src/SMSDSubDomains.cpp:42-56 | pitch 80, width 20, nns 1, ε = 3e-16: x = 110, 120, 130 accepted; 131, 79 and an off-boundary point rejected |
| SubDomains.NeighbourStripInside | src/SMSDSubDomains.cpp:75-96 | acceptance implies `on_boundary` and y < ε; nns ≤ 0 accepts nothing |
| SubDomains.NeighbourStripBoundaryInside | src/SMSDSubDomains.cpp:75-96 | the whole `inside`, loop included, is true iff the gate holds and some c in [0, 2·nns] with c ≠ nns has x in its window |
| SubDomains.CentralNeighbourExclusive | src/SMSDSubDomains.cpp:42-96 | under the narrow-strip bound no point is in both the central strip and a neighbour strip |
| SubDomains.BackPlaneInside | src/SMSDSubDomains.cpp:110-121 | acceptance implies `on_boundary`, y > depth − ε·depth and x_min − ε < x < x_max + ε |
| SubDomains.FullFieldInteriorUnmarked | src/SMSDSubDomains.cpp:42-121 | strip and back-plane classes accept no point with ε ≤ y ≤ depth − ε·depth |
| SubDomains.PeriodicLateralInside | src/SMSDSubDomains.cpp:141-144 | the left face accepts x iff −ε < x < ε |
| SubDomains.PeriodicLateralIgnoresYAndFlag | src/SMSDSubDomains.cpp:141-144 | the left-face test ignores y and `on_boundary` |
| SubDomains.PeriodicLateralMap | src/SMSDSubDomains.cpp:152-156 | the image keeps y and is shifted left by exactly x_max |
| SubDomains.PeriodicMapOntoTarget | src/SMSDSubDomains.cpp:141-156 | a point is mapped into the target face iff it lies within ε of x = x_max |
| SubDomains.RightFaceMapsToLeftFace | src/SMSDSubDomains.cpp:152-156 | a point with x = x_max maps to (0, y), which the target face accepts |
| SubDomains.PeriodicMapIsTranslation | src/SMSDSubDomains.cpp:152-156 | the map preserves the displacement between any two points |
| SubDomains.CentralStripWPInside | src/SMSDSubDomains.cpp:168-182 | acceptance implies `on_boundary` and y < dw − ε·dw |
| SubDomains.CentralStripWPSharesWindow | src/SMSDSubDomains.cpp:168-182 | the WP central strip is the full-field central strip's window with the y gate replaced by y < dw − ε·dw |
| SubDomains.CentralStripWPBeyondFrontFace | src/SMSDSubDomains.cpp:172 | a point with ε ≤ y < dw − ε·dw in the window is accepted by the WP strip and rejected by the full-field strip |
| SubDomains.NeighbourStripWPInside | src/SMSDSubDomains.cpp:192-213 | acceptance implies `on_boundary` and y < dw − ε·dw; nns ≤ 0 accepts nothing |
| SubDomains.NeighbourStripWPSharesWindow | src/SMSDSubDomains.cpp:192-213 | the WP neighbour strips are the full-field windows with the y gate replaced |
| SubDomains.CentralNeighbourWPExclusive | src/SMSDSubDomains.cpp:168-213 | the WP central and neighbour strips are mutually exclusive under the narrow-strip bound |
| SubDomains.BackPlaneWPInside | src/SMSDSubDomains.cpp:223-231 | every point the full-field back plane accepts at the same depth is accepted; acceptance implies y > depth − ε·depth |
| SubDomains.BackPlaneWPIgnoresXAndFlag | src/SMSDSubDomains.cpp:223-231 | the WP back plane depends on y alone |
| SubDomains.BackPlaneWPContainsBackPlane | src/SMSDSubDomains.cpp:223-231 | at equal depth every point the full-field back plane accepts, the WP back plane accepts |
| SubDomains.BackPlaneVariantsDisagree | src/SMSDSubDomains.cpp:223-231 | beyond the lateral extent, or off the mesh boundary, past the depth gate: WP accepts, full-field rejects |
| SubDomains.Inside | src/SMSDSubDomains.cpp:42-231 | every class except the periodic face and the WP back plane accepts only points with `on_boundary` |
| CarrierTransport.DriftSign | src/CarrierTransport.cpp:37-42 | the sign is −1 iff the carrier character is 'e', and +1 for every other character |
| CarrierTransport.NewDriftTransport | src/CarrierTransport.cpp:30-43 | the evaluator gets the sign for its carrier; mobility bound to (carrier, T); T, diffusion, dt, sampler stored unchanged |
| CarrierTransport.ConstructedMobility | src/CarrierTransport.cpp:30-59 | an evaluator built for (carrier type, T) evaluates the law at that carrier type and T, at sqrt(E·E), whatever diffusion, dt and sampler it was given |
| CarrierTransport.MobilityDependsOnlyOnMagnitude | src/CarrierTransport.cpp:57-59 | two field samples with equal E·E get equal mobility |
| CarrierTransport.Velocity | src/CarrierTransport.cpp:50-60 | the velocity is parallel to the sampled field; a zero field component gives a zero velocity component; v·E = sign·μ·(E·E) |
| CarrierTransport.DriftSpeed | src/CarrierTransport.cpp:57-59 | v·v = μ²·(E·E) whatever the sign |
| CarrierTransport.ElectronOpposesHole | src/CarrierTransport.cpp:37-59 | with the same sampled field and mobility value, the electron velocity is the negated hole velocity |
| CarrierTransport.VelocityIgnoresTimeAndStoredConfig | src/CarrierTransport.cpp:50-60 | the result does not depend on t, `_dt`, `_diffusion` or `_temp` |
| CarrierTransport.VelocityDependsOnlyOnSampledField | src/CarrierTransport.cpp:55-59 | with the same sign and mobility, equal field samples give equal velocities, whatever the position |
| CarrierTransport.VelocityLinearInMobility | src/CarrierTransport.cpp:58-59 | scaling the mobility value by k scales the velocity by k |
| CarrierTransport.ReversedFieldReversesVelocity | src/CarrierTransport.cpp:56-59 | a reversed field sample gives a reversed velocity, because the magnitude, and hence μ, is unchanged |
| CarrierTransport.ElectronWorkedExample | src/CarrierTransport.cpp:37-59 | electron, field (1000, 0), mobility 1450: velocity (−1450000, 0) |

## Left out

- IEEE rounding. Doubles are reals, so behaviour exactly at the ε-widened window edges under floating-point rounding is not modelled.
- Integer width. The strip count `1 + 2*_nns` (src/SMSDSubDomains.cpp:80, 197) is an `int` expression; the model computes it without 32-bit overflow, because any realistic strip count is far below the limit. The products `_pitch*_nns` and `_pitch*count` are doubles and fall under IEEE rounding above.
- The field sampler's failure outside the mesh. The sampler is a total function. A failure is the solver's and is propagated unchanged by the source.
- The body of the mobility law and `sqrt`. They are external, so they are function parameters with no properties.
- The dolfin `SubDomain` base class, its virtual dispatch, and the `Array<double>`/`Point` wrappers. The `SubDomain` sum type stands in for the dispatch.
- The sub-domain constructors. They only store their arguments, so they become datatype constructors. `PeriodicLateralBoundary`'s x_min and depth are stored but never read, and so are `BackPlaneBoundaryWP`'s x_min and x_max (src/SMSDSubDomains.cpp:215-231).
- The ODE stepper that calls `operator()`, the evaluator's default constructor and destructor (src/CarrierTransport.cpp:63-70), and the ownership of the field evaluator `_d_f_grad`.
- The commented-out alternative `BackPlaneBoundaryWP::inside` (src/SMSDSubDomains.cpp:234-248), which is not compiled.
- CarrierTransport.ObtainMobility has no contract of its own. It only forwards to the external law, and any ensures would repeat its body.
- CarrierTransport.MobilityAt has no contract of its own for the same reason. What the evaluator's mobility depends on is stated by `ConstructedMobility`, `MobilityDependsOnlyOnMagnitude` and the ensures of `Velocity`.
