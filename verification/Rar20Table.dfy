/** The initial substitution table of the RAR 2.x cipher (rar20.rs, lines 8-22)
    and its inverse. */
module Rar20Table {

  /** The initial substitution table, entry by entry. */
  function InitialAt(i: int): int {
    if i < 32 then InitialAt0(i) else if i < 64 then InitialAt1(i)
    else if i < 96 then InitialAt2(i) else if i < 128 then InitialAt3(i)
    else if i < 160 then InitialAt4(i) else if i < 192 then InitialAt5(i)
    else if i < 224 then InitialAt6(i) else InitialAt7(i)
  }

  function InitialAt0(i: int): int {
    match i
    case 0 => 215 case 1 => 19 case 2 => 149 case 3 => 35 case 4 => 73 case 5 => 197 case 6 => 192 case 7 => 205
    case 8 => 249 case 9 => 28 case 10 => 16 case 11 => 119 case 12 => 48 case 13 => 221 case 14 => 2 case 15 => 42
    case 16 => 232 case 17 => 1 case 18 => 177 case 19 => 233 case 20 => 14 case 21 => 88 case 22 => 219 case 23 => 25
    case 24 => 223 case 25 => 195 case 26 => 244 case 27 => 90 case 28 => 87 case 29 => 239 case 30 => 153 case _ => 137
  }

  function InitialAt1(i: int): int {
    match i
    case 32 => 255 case 33 => 199 case 34 => 147 case 35 => 70 case 36 => 92 case 37 => 66 case 38 => 246 case 39 => 13
    case 40 => 216 case 41 => 40 case 42 => 62 case 43 => 29 case 44 => 217 case 45 => 230 case 46 => 86 case 47 => 6
    case 48 => 71 case 49 => 24 case 50 => 171 case 51 => 196 case 52 => 101 case 53 => 113 case 54 => 218 case 55 => 123
    case 56 => 93 case 57 => 91 case 58 => 163 case 59 => 178 case 60 => 202 case 61 => 67 case 62 => 44 case _ => 235
  }

  function InitialAt2(i: int): int {
    match i
    case 64 => 107 case 65 => 250 case 66 => 75 case 67 => 234 case 68 => 49 case 69 => 167 case 70 => 125 case 71 => 211
    case 72 => 83 case 73 => 114 case 74 => 157 case 75 => 144 case 76 => 32 case 77 => 193 case 78 => 143 case 79 => 36
    case 80 => 158 case 81 => 124 case 82 => 247 case 83 => 187 case 84 => 89 case 85 => 214 case 86 => 141 case 87 => 47
    case 88 => 121 case 89 => 228 case 90 => 61 case 91 => 130 case 92 => 213 case 93 => 194 case 94 => 174 case _ => 251
  }

  function InitialAt3(i: int): int {
    match i
    case 96 => 97 case 97 => 110 case 98 => 54 case 99 => 229 case 100 => 115 case 101 => 57 case 102 => 152 case 103 => 94
    case 104 => 105 case 105 => 243 case 106 => 212 case 107 => 55 case 108 => 209 case 109 => 245 case 110 => 63 case 111 => 11
    case 112 => 164 case 113 => 200 case 114 => 31 case 115 => 156 case 116 => 81 case 117 => 176 case 118 => 227 case 119 => 21
    case 120 => 76 case 121 => 99 case 122 => 139 case 123 => 188 case 124 => 127 case 125 => 17 case 126 => 248 case _ => 51
  }

  function InitialAt4(i: int): int {
    match i
    case 128 => 207 case 129 => 120 case 130 => 189 case 131 => 210 case 132 => 8 case 133 => 226 case 134 => 41 case 135 => 72
    case 136 => 183 case 137 => 203 case 138 => 135 case 139 => 165 case 140 => 166 case 141 => 60 case 142 => 98 case 143 => 7
    case 144 => 122 case 145 => 38 case 146 => 155 case 147 => 170 case 148 => 69 case 149 => 172 case 150 => 252 case 151 => 238
    case 152 => 39 case 153 => 134 case 154 => 59 case 155 => 128 case 156 => 236 case 157 => 27 case 158 => 240 case _ => 80
  }

  function InitialAt5(i: int): int {
    match i
    case 160 => 131 case 161 => 3 case 162 => 85 case 163 => 206 case 164 => 145 case 165 => 79 case 166 => 154 case 167 => 142
    case 168 => 159 case 169 => 220 case 170 => 201 case 171 => 133 case 172 => 74 case 173 => 64 case 174 => 20 case 175 => 129
    case 176 => 224 case 177 => 185 case 178 => 138 case 179 => 103 case 180 => 173 case 181 => 182 case 182 => 43 case 183 => 34
    case 184 => 254 case 185 => 82 case 186 => 198 case 187 => 151 case 188 => 231 case 189 => 180 case 190 => 58 case _ => 10
  }

  function InitialAt6(i: int): int {
    match i
    case 192 => 118 case 193 => 26 case 194 => 102 case 195 => 12 case 196 => 50 case 197 => 132 case 198 => 22 case 199 => 191
    case 200 => 136 case 201 => 111 case 202 => 162 case 203 => 179 case 204 => 45 case 205 => 4 case 206 => 148 case 207 => 108
    case 208 => 161 case 209 => 56 case 210 => 78 case 211 => 126 case 212 => 242 case 213 => 222 case 214 => 15 case 215 => 175
    case 216 => 146 case 217 => 23 case 218 => 33 case 219 => 241 case 220 => 181 case 221 => 190 case 222 => 77 case _ => 225
  }

  function InitialAt7(i: int): int {
    match i
    case 224 => 0 case 225 => 46 case 226 => 169 case 227 => 186 case 228 => 68 case 229 => 95 case 230 => 237 case 231 => 65
    case 232 => 53 case 233 => 208 case 234 => 253 case 235 => 168 case 236 => 9 case 237 => 18 case 238 => 100 case 239 => 52
    case 240 => 116 case 241 => 184 case 242 => 160 case 243 => 96 case 244 => 109 case 245 => 37 case 246 => 30 case 247 => 106
    case 248 => 140 case 249 => 104 case 250 => 150 case 251 => 5 case 252 => 204 case 253 => 117 case 254 => 112 case _ => 84
  }

  /** Where each byte value sits in the initial table. */
  function InitialPlace(i: int): int {
    if i < 32 then InitialPlace0(i) else if i < 64 then InitialPlace1(i)
    else if i < 96 then InitialPlace2(i) else if i < 128 then InitialPlace3(i)
    else if i < 160 then InitialPlace4(i) else if i < 192 then InitialPlace5(i)
    else if i < 224 then InitialPlace6(i) else InitialPlace7(i)
  }

  function InitialPlace0(i: int): int {
    match i
    case 0 => 224 case 1 => 17 case 2 => 14 case 3 => 161 case 4 => 205 case 5 => 251 case 6 => 47 case 7 => 143
    case 8 => 132 case 9 => 236 case 10 => 191 case 11 => 111 case 12 => 195 case 13 => 39 case 14 => 20 case 15 => 214
    case 16 => 10 case 17 => 125 case 18 => 237 case 19 => 1 case 20 => 174 case 21 => 119 case 22 => 198 case 23 => 217
    case 24 => 49 case 25 => 23 case 26 => 193 case 27 => 157 case 28 => 9 case 29 => 43 case 30 => 246 case _ => 114
  }

  function InitialPlace1(i: int): int {
    match i
    case 32 => 76 case 33 => 218 case 34 => 183 case 35 => 3 case 36 => 79 case 37 => 245 case 38 => 145 case 39 => 152
    case 40 => 41 case 41 => 134 case 42 => 15 case 43 => 182 case 44 => 62 case 45 => 204 case 46 => 225 case 47 => 87
    case 48 => 12 case 49 => 68 case 50 => 196 case 51 => 127 case 52 => 239 case 53 => 232 case 54 => 98 case 55 => 107
    case 56 => 209 case 57 => 101 case 58 => 190 case 59 => 154 case 60 => 141 case 61 => 90 case 62 => 42 case _ => 110
  }

  function InitialPlace2(i: int): int {
    match i
    case 64 => 173 case 65 => 231 case 66 => 37 case 67 => 61 case 68 => 228 case 69 => 148 case 70 => 35 case 71 => 48
    case 72 => 135 case 73 => 4 case 74 => 172 case 75 => 66 case 76 => 120 case 77 => 222 case 78 => 210 case 79 => 165
    case 80 => 159 case 81 => 116 case 82 => 185 case 83 => 72 case 84 => 255 case 85 => 162 case 86 => 46 case 87 => 28
    case 88 => 21 case 89 => 84 case 90 => 27 case 91 => 57 case 92 => 36 case 93 => 56 case 94 => 103 case _ => 229
  }

  function InitialPlace3(i: int): int {
    match i
    case 96 => 243 case 97 => 96 case 98 => 142 case 99 => 121 case 100 => 238 case 101 => 52 case 102 => 194 case 103 => 179
    case 104 => 249 case 105 => 104 case 106 => 247 case 107 => 64 case 108 => 207 case 109 => 244 case 110 => 97 case 111 => 201
    case 112 => 254 case 113 => 53 case 114 => 73 case 115 => 100 case 116 => 240 case 117 => 253 case 118 => 192 case 119 => 11
    case 120 => 129 case 121 => 88 case 122 => 144 case 123 => 55 case 124 => 81 case 125 => 70 case 126 => 211 case _ => 124
  }

  function InitialPlace4(i: int): int {
    match i
    case 128 => 155 case 129 => 175 case 130 => 91 case 131 => 160 case 132 => 197 case 133 => 171 case 134 => 153 case 135 => 138
    case 136 => 200 case 137 => 31 case 138 => 178 case 139 => 122 case 140 => 248 case 141 => 86 case 142 => 167 case 143 => 78
    case 144 => 75 case 145 => 164 case 146 => 216 case 147 => 34 case 148 => 206 case 149 => 2 case 150 => 250 case 151 => 187
    case 152 => 102 case 153 => 30 case 154 => 166 case 155 => 146 case 156 => 115 case 157 => 74 case 158 => 80 case _ => 168
  }

  function InitialPlace5(i: int): int {
    match i
    case 160 => 242 case 161 => 208 case 162 => 202 case 163 => 58 case 164 => 112 case 165 => 139 case 166 => 140 case 167 => 69
    case 168 => 235 case 169 => 226 case 170 => 147 case 171 => 50 case 172 => 149 case 173 => 180 case 174 => 94 case 175 => 215
    case 176 => 117 case 177 => 18 case 178 => 59 case 179 => 203 case 180 => 189 case 181 => 220 case 182 => 181 case 183 => 136
    case 184 => 241 case 185 => 177 case 186 => 227 case 187 => 83 case 188 => 123 case 189 => 130 case 190 => 221 case _ => 199
  }

  function InitialPlace6(i: int): int {
    match i
    case 192 => 6 case 193 => 77 case 194 => 93 case 195 => 25 case 196 => 51 case 197 => 5 case 198 => 186 case 199 => 33
    case 200 => 113 case 201 => 170 case 202 => 60 case 203 => 137 case 204 => 252 case 205 => 7 case 206 => 163 case 207 => 128
    case 208 => 233 case 209 => 108 case 210 => 131 case 211 => 71 case 212 => 106 case 213 => 92 case 214 => 85 case 215 => 0
    case 216 => 40 case 217 => 44 case 218 => 54 case 219 => 22 case 220 => 169 case 221 => 13 case 222 => 213 case _ => 24
  }

  function InitialPlace7(i: int): int {
    match i
    case 224 => 176 case 225 => 223 case 226 => 133 case 227 => 118 case 228 => 89 case 229 => 99 case 230 => 45 case 231 => 188
    case 232 => 16 case 233 => 19 case 234 => 67 case 235 => 63 case 236 => 156 case 237 => 230 case 238 => 151 case 239 => 29
    case 240 => 158 case 241 => 219 case 242 => 212 case 243 => 105 case 244 => 26 case 245 => 109 case 246 => 38 case 247 => 82
    case 248 => 126 case 249 => 8 case 250 => 65 case 251 => 95 case 252 => 150 case 253 => 234 case 254 => 184 case _ => 32
  }

  /** The table is a permutation of the byte values: `InitialPlace` undoes it on
      every index and is undone by it on every value. */
  lemma InitialIsPermutation(i: int)
    requires 0 <= i < 256
    ensures 0 <= InitialAt(i) < 256 && InitialPlace(InitialAt(i)) == i
    ensures 0 <= InitialPlace(i) < 256 && InitialAt(InitialPlace(i)) == i
  {
    hide InitialAt;
    hide InitialPlace;
    if i < 32 {
      PlaceUndoesAt0(i);
      AtUndoesPlace0(i);
    } else if i < 64 {
      PlaceUndoesAt1(i);
      AtUndoesPlace1(i);
    } else if i < 96 {
      PlaceUndoesAt2(i);
      AtUndoesPlace2(i);
    } else if i < 128 {
      PlaceUndoesAt3(i);
      AtUndoesPlace3(i);
    } else if i < 160 {
      PlaceUndoesAt4(i);
      AtUndoesPlace4(i);
    } else if i < 192 {
      PlaceUndoesAt5(i);
      AtUndoesPlace5(i);
    } else if i < 224 {
      PlaceUndoesAt6(i);
      AtUndoesPlace6(i);
    } else {
      PlaceUndoesAt7(i);
      AtUndoesPlace7(i);
    }
  }

  lemma PlaceUndoesAt0(i: int)
    requires 0 <= i < 32
    ensures 0 <= InitialAt(i) < 256 && InitialPlace(InitialAt(i)) == i
  {
  }

  lemma AtUndoesPlace0(i: int)
    requires 0 <= i < 32
    ensures 0 <= InitialPlace(i) < 256 && InitialAt(InitialPlace(i)) == i
  {
  }

  lemma PlaceUndoesAt1(i: int)
    requires 32 <= i < 64
    ensures 0 <= InitialAt(i) < 256 && InitialPlace(InitialAt(i)) == i
  {
  }

  lemma AtUndoesPlace1(i: int)
    requires 32 <= i < 64
    ensures 0 <= InitialPlace(i) < 256 && InitialAt(InitialPlace(i)) == i
  {
  }

  lemma PlaceUndoesAt2(i: int)
    requires 64 <= i < 96
    ensures 0 <= InitialAt(i) < 256 && InitialPlace(InitialAt(i)) == i
  {
  }

  lemma AtUndoesPlace2(i: int)
    requires 64 <= i < 96
    ensures 0 <= InitialPlace(i) < 256 && InitialAt(InitialPlace(i)) == i
  {
  }

  lemma PlaceUndoesAt3(i: int)
    requires 96 <= i < 128
    ensures 0 <= InitialAt(i) < 256 && InitialPlace(InitialAt(i)) == i
  {
  }

  lemma AtUndoesPlace3(i: int)
    requires 96 <= i < 128
    ensures 0 <= InitialPlace(i) < 256 && InitialAt(InitialPlace(i)) == i
  {
  }

  lemma PlaceUndoesAt4(i: int)
    requires 128 <= i < 160
    ensures 0 <= InitialAt(i) < 256 && InitialPlace(InitialAt(i)) == i
  {
  }

  lemma AtUndoesPlace4(i: int)
    requires 128 <= i < 160
    ensures 0 <= InitialPlace(i) < 256 && InitialAt(InitialPlace(i)) == i
  {
  }

  lemma PlaceUndoesAt5(i: int)
    requires 160 <= i < 192
    ensures 0 <= InitialAt(i) < 256 && InitialPlace(InitialAt(i)) == i
  {
  }

  lemma AtUndoesPlace5(i: int)
    requires 160 <= i < 192
    ensures 0 <= InitialPlace(i) < 256 && InitialAt(InitialPlace(i)) == i
  {
  }

  lemma PlaceUndoesAt6(i: int)
    requires 192 <= i < 224
    ensures 0 <= InitialAt(i) < 256 && InitialPlace(InitialAt(i)) == i
  {
  }

  lemma AtUndoesPlace6(i: int)
    requires 192 <= i < 224
    ensures 0 <= InitialPlace(i) < 256 && InitialAt(InitialPlace(i)) == i
  {
  }

  lemma PlaceUndoesAt7(i: int)
    requires 224 <= i < 256
    ensures 0 <= InitialAt(i) < 256 && InitialPlace(InitialAt(i)) == i
  {
  }

  lemma AtUndoesPlace7(i: int)
    requires 224 <= i < 256
    ensures 0 <= InitialPlace(i) < 256 && InitialAt(InitialPlace(i)) == i
  {
  }
}
